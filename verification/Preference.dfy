/** Which tracks of a release are downloaded: sortTracksByPreference in plugin/app.go, then
    selectTracksForDownload in plugin/download.go. */
module Preferences {
  import opened Wrappers
  import opened Wire
  import opened Sorting

  /** subtitle.BaseLang: the bare language of a tag, if it has a usable one. */
  type BaseLang = string -> Option<string>

  datatype Preference = Preference(languages: seq<string>, kind: string, baseLang: BaseLang) {
    function Base(t: TrackSummary): Option<string> {
      baseLang(t.lang)
    }

    /** Position of the track's language in the list, or past its end. */
    function LangRank(t: TrackSummary): nat {
      match Base(t)
      case None => |languages|
      case Some(b) => Position(languages, b)
    }

    function KindRank(t: TrackSummary): nat {
      if kind != "" && t.kind == kind then 0 else 1
    }

    /** Language first, kind as the tiebreak. */
    function Rank(t: TrackSummary): int {
      2 * LangRank(t) + KindRank(t)
    }

    function InLanguage(base: Option<string>): TrackSummary -> bool {
      t => Base(t) == base
    }

    function InLanguageAndRank(base: Option<string>, k: int): TrackSummary -> bool {
      t => Base(t) == base && Rank(t) == k
    }

    predicate Wanted(t: TrackSummary, allLanguages: bool) {
      Base(t).Some? && (allLanguages || Base(t).value in languages)
    }
  }

  function Position(languages: seq<string>, base: string): (i: nat)
    ensures i <= |languages|
    ensures i < |languages| <==> base in languages
    ensures i < |languages| ==> languages[i] == base && base !in languages[..i]
  {
    if languages == [] then 0 else if languages[0] == base then 0 else 1 + Position(languages[1..], base)
  }

  lemma RankIsLexicographic(p: Preference, a: TrackSummary, b: TrackSummary)
    ensures p.Rank(a) < p.Rank(b) <==>
            p.LangRank(a) < p.LangRank(b) || (p.LangRank(a) == p.LangRank(b) && p.KindRank(a) < p.KindRank(b))
  {
  }

  /** Its language is in the list. */
  predicate Listed(p: Preference, t: TrackSummary) {
    p.baseLang(t.lang).Some? && p.baseLang(t.lang).value in p.languages
  }

  /** `a` is in the list, and before `b` if that is too. */
  ghost predicate ListedBefore(p: Preference, a: string, b: string) {
    exists m :: 0 <= m < |p.languages| && p.languages[m] == a && b !in p.languages[..m + 1]
  }

  predicate OfKind(p: Preference, t: TrackSummary) {
    p.kind != "" && t.kind == p.kind
  }

  /** One listed language, or none of the list. */
  predicate SameLanguage(p: Preference, a: TrackSummary, b: TrackSummary) {
    if Listed(p, a) then p.baseLang(a.lang) == p.baseLang(b.lang) else !Listed(p, b)
  }

  /** `a` need not go after `b`: its language is listed earlier, or it is of the preferred kind unless
      neither is. */
  ghost predicate MayPrecede(p: Preference, a: TrackSummary, b: TrackSummary) {
    if SameLanguage(p, a, b) then OfKind(p, b) ==> OfKind(p, a)
    else Listed(p, a) && (Listed(p, b) ==>
        ListedBefore(p, p.baseLang(a.lang).value, p.baseLang(b.lang).value))
  }

  function Ties(p: Preference, t: TrackSummary): TrackSummary -> bool {
    x => SameLanguage(p, t, x) && (OfKind(p, x) <==> OfKind(p, t))
  }

  /** Listed languages first and in the order of the list, the preferred kind first in each, and what
      ties in the order the server gave. */
  ghost predicate ByPreference(out: seq<TrackSummary>, tracks: seq<TrackSummary>, p: Preference) {
    && multiset(out) == multiset(tracks)
    && (forall i, j :: 0 <= i < j < |out| ==> MayPrecede(p, out[i], out[j]))
    && (forall t :: Where(out, Ties(p, t)) == Where(tracks, Ties(p, t)))
  }

  lemma LowerRankMayPrecede(p: Preference, a: TrackSummary, b: TrackSummary)
    requires p.Rank(a) <= p.Rank(b)
    ensures MayPrecede(p, a, b)
  {
    RankIsLexicographic(p, b, a);
    if !SameLanguage(p, a, b) && Listed(p, b) {
      var m := p.LangRank(a);
      assert p.languages[m] == p.baseLang(a.lang).value;
      assert p.baseLang(b.lang).value !in p.languages[..m + 1] by {
        assert p.LangRank(b) > m;
        assert p.languages[..p.LangRank(b)][..m + 1] == p.languages[..m + 1];
      }
    }
  }

  lemma TiesShareARank(p: Preference, t: TrackSummary, x: TrackSummary)
    requires Ties(p, t)(x)
    ensures p.Rank(x) == p.Rank(t)
  {
  }

  lemma SortedByPreference(tracks: seq<TrackSummary>, p: Preference)
    ensures ByPreference(SortBy(tracks, p.Rank), tracks, p)
  {
    var out := SortBy(tracks, p.Rank);
    SortByIsStableSort(tracks, p.Rank);
    hide SortBy, MayPrecede;
    forall i, j | 0 <= i < j < |out| ensures MayPrecede(p, out[i], out[j]) {
      LowerRankMayPrecede(p, out[i], out[j]);
    }
    forall t ensures Where(out, Ties(p, t)) == Where(tracks, Ties(p, t)) {
      forall x | Ties(p, t)(x) ensures p.Rank(x) == p.Rank(t) {
        TiesShareARank(p, t, x);
      }
      TiesKeepTheirOrder(tracks, p.Rank, p.Rank(t), Ties(p, t));
    }
  }

  method SortTracksByPreference(tracks: array<TrackSummary>, p: Preference)
    modifies tracks
    ensures tracks[..] == SortBy(old(tracks[..]), p.Rank) && ByPreference(tracks[..], old(tracks[..]), p)
  {
    hide ByPreference, SortBy;
    SortedByPreference(tracks[..], p);
    SortInPlace(tracks, p.Rank);
  }

  // -- Selection -----------------------------------------------------------

  function Bases(tracks: seq<TrackSummary>, p: Preference): set<Option<string>> {
    set t | t in tracks :: p.Base(t)
  }

  function Select(tracks: seq<TrackSummary>, p: Preference, allLanguages: bool): seq<TrackSummary> {
    if tracks == [] then []
    else
      var chosen, t := Select(tracks[..|tracks| - 1], p, allLanguages), tracks[|tracks| - 1];
      if p.Wanted(t, allLanguages) && p.Base(t) !in Bases(chosen, p) then chosen + [t] else chosen
  }

  method SelectTracksForDownload(tracks: seq<TrackSummary>, p: Preference, allLanguages: bool)
    returns (out: seq<TrackSummary>)
    ensures out == Select(tracks, p, allLanguages)
  {
    var seen: set<string> := {};
    out := [];
    for i := 0 to |tracks|
      invariant out == Select(tracks[..i], p, allLanguages)
      invariant forall b :: b in seen <==> Some(b) in Bases(out, p)
    {
      assert tracks[..i + 1][..i] == tracks[..i];
      var t := tracks[i];
      var base := p.Base(t);
      if base.None? || base.value in seen {
        continue;
      }
      if !allLanguages && base.value !in p.languages {
        continue;
      }
      seen := seen + {base.value};
      assert Bases(out + [t], p) == Bases(out, p) + {base};
      out := out + [t];
    }
    assert tracks[..|tracks|] == tracks;
  }

  /** The first element satisfying `q`. */
  function FirstWith<T>(s: seq<T>, q: T -> bool): Option<T> {
    if s == [] then None
    else
      match FirstWith(s[..|s| - 1], q)
      case Some(x) => Some(x)
      case None => if q(s[|s| - 1]) then Some(s[|s| - 1]) else None
  }

  lemma {:induction false} FirstWithIsFirst<T>(s: seq<T>, q: T -> bool) returns (i: nat)
    ensures FirstWith(s, q).None? ==> forall j :: 0 <= j < |s| ==> !q(s[j])
    ensures FirstWith(s, q).Some? ==>
              i < |s| && s[i] == FirstWith(s, q).value && q(s[i]) && forall j :: 0 <= j < i ==> !q(s[j])
  {
    i := 0;
    if s != [] {
      i := FirstWithIsFirst(s[..|s| - 1], q);
      if FirstWith(s[..|s| - 1], q).None? {
        i := |s| - 1;
      }
    }
  }

  /** Looking among one rank only is looking for a stronger property. */
  lemma {:induction false} FirstWithinRank<T>(s: seq<T>, rank: T -> int, k: int, q: T -> bool, r: T -> bool)
    requires forall x :: r(x) <==> q(x) && rank(x) == k
    ensures FirstWith(OfRank(s, rank, k), q) == FirstWith(s, r)
  {
    if s != [] {
      FirstWithinRank(s[..|s| - 1], rank, k, q, r);
      var init, last := OfRank(s[..|s| - 1], rank, k), s[|s| - 1];
      if rank(last) == k {
        assert (init + [last])[..|init|] == init;
      } else {
        assert OfRank(s, rank, k) == init;
      }
    }
  }

  /** What is chosen: the first track of every wanted language, languages in order of appearance. */
  lemma {:induction false} SelectTakesFirsts(tracks: seq<TrackSummary>, p: Preference, all: bool)
    ensures forall t :: t in Select(tracks, p, all) <==>
                        t in tracks && p.Wanted(t, all) && FirstWith(tracks, p.InLanguage(p.Base(t))) == Some(t)
    ensures forall i, j :: 0 <= i < j < |Select(tracks, p, all)| ==>
                           p.Base(Select(tracks, p, all)[i]) != p.Base(Select(tracks, p, all)[j])
  {
    if tracks != [] {
      var init, last := tracks[..|tracks| - 1], tracks[|tracks| - 1];
      SelectTakesFirsts(init, p, all);
      var chosen := Select(init, p, all);
      assert tracks == init + [last];
      if p.Wanted(last, all) {
        var first := FirstWith(init, p.InLanguage(p.Base(last)));
        var i := FirstWithIsFirst(init, p.InLanguage(p.Base(last)));
        if first.Some? {
          assert FirstWith(init, p.InLanguage(p.Base(first.value))) == first;
          assert first.value in chosen;
          assert p.Base(last) in Bases(chosen, p);
        }
      }
    }
  }

  lemma {:induction false} SelectIsSubsequence(tracks: seq<TrackSummary>, p: Preference, all: bool)
    ensures forall t :: t in Select(tracks, p, all) ==> t in tracks
  {
    if tracks != [] {
      SelectIsSubsequence(tracks[..|tracks| - 1], p, all);
    }
  }

  lemma AppendKeepsSorted<T>(s: seq<T>, x: T, rank: T -> int)
    requires Sorted(s, rank) && forall y :: y in s ==> rank(y) <= rank(x)
    ensures Sorted(s + [x], rank)
  {
  }

  lemma LastRanksHighest<T>(s: seq<T>, rank: T -> int)
    requires s != [] && Sorted(s, rank)
    ensures Sorted(s[..|s| - 1], rank)
    ensures forall y :: y in s[..|s| - 1] ==> rank(y) <= rank(s[|s| - 1])
  {
  }

  lemma {:induction false} SelectKeepsOrder(tracks: seq<TrackSummary>, p: Preference, all: bool)
    requires Sorted(tracks, p.Rank)
    ensures Sorted(Select(tracks, p, all), p.Rank)
  {
    if tracks != [] {
      var init, last := tracks[..|tracks| - 1], tracks[|tracks| - 1];
      LastRanksHighest(tracks, p.Rank);
      SelectKeepsOrder(init, p, all);
      SelectIsSubsequence(init, p, all);
      AppendKeepsSorted(Select(init, p, all), last, p.Rank);
    }
  }

  // -- The best track of every language --------------------------------------

  /** The first of its language that is of the preferred kind, or the first of all if none is. */
  ghost predicate IsBest(tracks: seq<TrackSummary>, p: Preference, t: TrackSummary) {
    exists i :: 0 <= i < |tracks| && tracks[i] == t &&
                forall j :: 0 <= j < |tracks| && p.baseLang(tracks[j].lang) == p.baseLang(t.lang) ==>
                  NoBetter(p, tracks[j], j, t, i)
  }

  predicate NoBetter(p: Preference, u: TrackSummary, j: int, t: TrackSummary, i: int) {
    if p.kind != "" && t.kind == p.kind then u.kind == p.kind ==> i <= j
    else i <= j && (p.kind == "" || u.kind != p.kind)
  }

  lemma SameMembers(a: seq<TrackSummary>, b: seq<TrackSummary>)
    requires multiset(a) == multiset(b)
    ensures forall t :: t in a <==> t in b
  {
    forall t ensures t in a <==> t in b {
      assert t in a <==> t in multiset(a);
      assert t in b <==> t in multiset(b);
    }
  }

  /** If the first with `q` has the stronger property `r`, it is the first with `r`. */
  lemma {:induction false} FirstWithStronger<T>(s: seq<T>, q: T -> bool, r: T -> bool)
    requires forall x :: r(x) ==> q(x)
    ensures FirstWith(s, q).None? ==> FirstWith(s, r).None?
    ensures FirstWith(s, q).Some? && r(FirstWith(s, q).value) ==> FirstWith(s, r) == FirstWith(s, q)
  {
    if s != [] {
      FirstWithStronger(s[..|s| - 1], q, r);
    }
  }

  /** The first of its kind after a stable sort is the first as good before it. */
  lemma FirstSurvivesSort<T>(
    sorted: seq<T>, s: seq<T>, rank: T -> int, q: T -> bool, r: T -> bool, k: int, t: T)
    requires SameRanks(sorted, s, rank) && forall x :: r(x) <==> q(x) && rank(x) == k
    requires FirstWith(sorted, q) == Some(t) && r(t)
    ensures FirstWith(s, r) == Some(t)
  {
    FirstWithStronger(sorted, q, r);
    FirstWithinRank(sorted, rank, k, q, r);
    FirstWithinRank(s, rank, k, q, r);
    assert OfRank(sorted, rank, k) == OfRank(s, rank, k);
  }

  lemma FirstRanksFirst<T>(sorted: seq<T>, rank: T -> int, q: T -> bool, t: T, u: T)
    requires Sorted(sorted, rank) && FirstWith(sorted, q) == Some(t)
    requires u in sorted && q(u)
    ensures rank(t) <= rank(u)
  {
    var at := FirstWithIsFirst(sorted, q);
    var m :| 0 <= m < |sorted| && sorted[m] == u;
  }

  lemma FirstAfterSortIsFirstAsGood(tracks: seq<TrackSummary>, p: Preference, t: TrackSummary)
    requires FirstWith(SortBy(tracks, p.Rank), p.InLanguage(p.Base(t))) == Some(t)
    ensures FirstWith(tracks, p.InLanguageAndRank(p.Base(t), p.Rank(t))) == Some(t)
  {
    SortByIsStableSort(tracks, p.Rank);
    FirstSurvivesSort(SortBy(tracks, p.Rank), tracks, p.Rank, p.InLanguage(p.Base(t)),
                      p.InLanguageAndRank(p.Base(t), p.Rank(t)), p.Rank(t), t);
  }

  lemma FirstAfterSortIsBest(tracks: seq<TrackSummary>, p: Preference, t: TrackSummary)
    requires FirstWith(SortBy(tracks, p.Rank), p.InLanguage(p.Base(t))) == Some(t)
    ensures IsBest(tracks, p, t)
  {
    FirstAfterSortIsFirstAsGood(tracks, p, t);
    var asGood := p.InLanguageAndRank(p.Base(t), p.Rank(t));
    var i := FirstWithIsFirst(tracks, asGood);
    SortByIsStableSort(tracks, p.Rank);
    SameMembers(SortBy(tracks, p.Rank), tracks);
    forall j | 0 <= j < |tracks| && p.Base(tracks[j]) == p.Base(t) ensures NoBetter(p, tracks[j], j, t, i) {
      FirstRanksFirst(SortBy(tracks, p.Rank), p.Rank, p.InLanguage(p.Base(t)), t, tracks[j]);
      assert asGood(tracks[j]) <==> p.KindRank(t) == p.KindRank(tracks[j]);
    }
  }

  /** The language of `a` comes before that of `b`, or neither is listed. */
  ghost predicate LanguageFirst(p: Preference, a: TrackSummary, b: TrackSummary)
    requires p.baseLang(a.lang).Some? && p.baseLang(b.lang).Some?
  {
    (!Listed(p, a) && !Listed(p, b)) || ListedBefore(p, p.baseLang(a.lang).value, p.baseLang(b.lang).value)
  }

  /** Of two tracks in different languages, the one that ranks first has the earlier language. */
  lemma RankOrdersLanguages(p: Preference, a: TrackSummary, b: TrackSummary)
    requires p.Rank(a) <= p.Rank(b) && p.Base(a).Some? && p.Base(b).Some? && p.Base(a) != p.Base(b)
    ensures LanguageFirst(p, a, b)
  {
    LowerRankMayPrecede(p, a, b);
    if Listed(p, a) && !Listed(p, b) {
      var m := p.LangRank(a);
      assert p.languages[m] == p.baseLang(a.lang).value;
      assert p.baseLang(b.lang).value !in p.languages[..m + 1];
    }
  }

  predicate IsWanted(p: Preference, t: TrackSummary, all: bool) {
    p.baseLang(t.lang).Some? && (all || p.baseLang(t.lang).value in p.languages)
  }

  /** Every one is wanted and the best of its language. */
  ghost predicate ChosenAreBest(out: seq<TrackSummary>, tracks: seq<TrackSummary>, p: Preference, all: bool) {
    forall t :: t in out ==> t in tracks && IsWanted(p, t, all) && IsBest(tracks, p, t)
  }

  ghost predicate EveryLanguageChosen(out: seq<TrackSummary>, tracks: seq<TrackSummary>, p: Preference, all: bool) {
    forall t :: t in tracks && IsWanted(p, t, all) ==> LanguageChosen(out, p, t)
  }

  ghost predicate LanguageChosen(out: seq<TrackSummary>, p: Preference, t: TrackSummary) {
    exists u :: u in out && p.baseLang(u.lang) == p.baseLang(t.lang)
  }

  /** No language twice, listed languages first and in the configured order. */
  ghost predicate LanguagesInOrder(out: seq<TrackSummary>, p: Preference, all: bool) {
    forall i, j :: 0 <= i < j < |out| ==>
      IsWanted(p, out[i], all) && IsWanted(p, out[j], all)
      && p.baseLang(out[i].lang) != p.baseLang(out[j].lang) && LanguageFirst(p, out[i], out[j])
  }

  /** Sorting and then selecting takes, for every wanted language the release has, exactly one
      track: of the preferred kind if there is one, earliest in the server's order among equals,
      listed languages first and in the configured order. */
  lemma BestTrackPerLanguage(tracks: seq<TrackSummary>, p: Preference, all: bool)
    ensures var out := Select(SortBy(tracks, p.Rank), p, all);
            ChosenAreBest(out, tracks, p, all) && EveryLanguageChosen(out, tracks, p, all)
            && LanguagesInOrder(out, p, all)
  {
    var sorted := SortBy(tracks, p.Rank);
    SortByIsStableSort(tracks, p.Rank);
    SameMembers(sorted, tracks);
    hide *;
    BestAreChosen(tracks, p, all);
    LanguagesAreChosen(sorted, tracks, p, all);
    ChosenInOrder(sorted, p, all);
  }

  lemma BestAreChosen(tracks: seq<TrackSummary>, p: Preference, all: bool)
    ensures ChosenAreBest(Select(SortBy(tracks, p.Rank), p, all), tracks, p, all)
  {
    var sorted := SortBy(tracks, p.Rank);
    SortByIsStableSort(tracks, p.Rank);
    SameMembers(sorted, tracks);
    SelectTakesFirsts(sorted, p, all);
    hide SortBy, Select, FirstWith, IsBest, Sorted, SameRanks;
    forall t | t in Select(sorted, p, all) ensures IsBest(tracks, p, t) {
      FirstAfterSortIsBest(tracks, p, t);
    }
  }

  lemma LanguagesAreChosen(sorted: seq<TrackSummary>, tracks: seq<TrackSummary>, p: Preference, all: bool)
    requires forall t :: t in tracks ==> t in sorted
    ensures EveryLanguageChosen(Select(sorted, p, all), tracks, p, all)
  {
    SelectTakesFirsts(sorted, p, all);
    hide Select;
    forall t | t in tracks && IsWanted(p, t, all) ensures LanguageChosen(Select(sorted, p, all), p, t) {
      var i := FirstWithIsFirst(sorted, p.InLanguage(p.Base(t)));
      var j :| 0 <= j < |sorted| && sorted[j] == t;
      assert p.InLanguage(p.Base(t))(sorted[j]);
      assert sorted[i] in Select(sorted, p, all);
    }
  }

  lemma ChosenInOrder(sorted: seq<TrackSummary>, p: Preference, all: bool)
    requires Sorted(sorted, p.Rank)
    ensures LanguagesInOrder(Select(sorted, p, all), p, all)
  {
    var out := Select(sorted, p, all);
    SelectTakesFirsts(sorted, p, all);
    SelectKeepsOrder(sorted, p, all);
    hide LanguageFirst, Select, FirstWith;
    forall i, j | 0 <= i < j < |out|
      ensures IsWanted(p, out[i], all) && IsWanted(p, out[j], all)
      ensures p.baseLang(out[i].lang) != p.baseLang(out[j].lang) && LanguageFirst(p, out[i], out[j])
    {
      assert out[i] in out && out[j] in out;
      assert p.Base(out[i]) != p.Base(out[j]);
      RankOrdersLanguages(p, out[i], out[j]);
    }
  }
}
