/** The fuzzy city search of `app/services/RegionService.ts`: a gazetteer of
    provinces and their cities, flattened into (city, province) places, and
    a ranked search over those places that combines case-insensitive
    containment with a normalised Levenshtein similarity. */
module Regions {
  import opened Wrappers
  import opened JsString
  import opened EditDistance

  /** One record of the bundled region list. */
  datatype Region = Region(provinsi: string, kota: seq<string>)

  /** One flattened gazetteer entry: a trimmed city and its province. */
  datatype Place = Place(kota: string, provinsi: string)

  datatype SearchResult = SearchResult(kota: string, provinsi: string, score: real)

  // ================================================================ loading

  /** The places one region contributes, in its city order. */
  function RegionPlaces(r: Region): seq<Place> {
    seq(|r.kota|, k requires 0 <= k < |r.kota| => Place(Trim(r.kota[k]), r.provinsi))
  }

  /** All regions' places, region after region. */
  function Flatten(rs: seq<Region>): seq<Place>
    decreases |rs|
  {
    if rs == [] then [] else Flatten(rs[..|rs| - 1]) + RegionPlaces(rs[|rs| - 1])
  }

  /** The number of cities over all regions. */
  function CityCount(rs: seq<Region>): nat
    decreases |rs|
  {
    if rs == [] then 0 else CityCount(rs[..|rs| - 1]) + |rs[|rs| - 1].kota|
  }

  /** Flattening neither drops nor duplicates a city. */
  lemma {:induction false} FlattenLength(rs: seq<Region>)
    ensures |Flatten(rs)| == CityCount(rs)
    decreases |rs|
  {
    if rs != [] {
      FlattenLength(rs[..|rs| - 1]);
    }
  }

  /** City `k` of region `r` lands at position "cities of the regions before
      `r`, plus `k`", trimmed and paired with its own province: places come
      in region-then-city order. */
  lemma {:induction false} FlattenAt(rs: seq<Region>, r: nat, k: nat)
    requires r < |rs| && k < |rs[r].kota|
    ensures CityCount(rs[..r]) + k < |Flatten(rs)|
    ensures Flatten(rs)[CityCount(rs[..r]) + k] == Place(Trim(rs[r].kota[k]), rs[r].provinsi)
    decreases |rs|
  {
    var init := rs[..|rs| - 1];
    FlattenLength(init);
    if r == |rs| - 1 {
      assert rs[..r] == init;
    } else {
      FlattenAt(init, r, k);
      assert init[..r] == rs[..r];
    }
  }

  // ================================================================ similarity

  /** `calculateSimilarity`: one minus the edit distance of the lower-cased
      strings over the longer length, and 1 when both are empty; always in
      [0, 1]. */
  function Similarity(str1: string, str2: string): (sim: real)
    ensures 0.0 <= sim <= 1.0
  {
    var s1, s2 := Lower(str1), Lower(str2);
    var maxLen := Max(|s1|, |s2|);
    DistanceBounds(s1, s2);
    if maxLen == 0 then 1.0
    else
      RatioInUnit(Distance(s1, s2), maxLen);
      1.0 - (Distance(s1, s2) as real) / (maxLen as real)
  }

  lemma RatioInUnit(d: nat, m: nat)
    requires 0 < m && d <= m
    ensures 0.0 <= (d as real) / (m as real) <= 1.0
  {
    var q := (d as real) / (m as real);
    assert q * (m as real) == d as real;
    assert (1.0 - q) * (m as real) == (m - d) as real;
  }

  /** The similarity does not depend on the order of its arguments. */
  lemma SimilaritySymmetric(a: string, b: string)
    ensures Similarity(a, b) == Similarity(b, a)
  {
    DistanceSymmetric(Lower(a), Lower(b));
  }

  /** Similarity is exactly 1 for strings that are equal once lower-cased,
      and only for those. */
  lemma SimilarityOneIff(a: string, b: string)
    ensures Similarity(a, b) == 1.0 <==> Lower(a) == Lower(b)
  {
    var s1, s2 := Lower(a), Lower(b);
    DistanceZeroIff(s1, s2);
    var maxLen := Max(|s1|, |s2|);
    if maxLen > 0 {
      var d := Distance(s1, s2) as real;
      assert 1.0 - d / (maxLen as real) == 1.0 <==> d == 0.0;
    }
  }

  /** Case does not matter to the similarity. */
  lemma SimilarityIgnoresCase(a: string, b: string)
    ensures Similarity(Lower(a), b) == Similarity(a, b)
    ensures Similarity(a, Lower(b)) == Similarity(a, b)
  {
    LowerIdempotent(a);
    LowerIdempotent(b);
  }

  /** A one-letter typo: "bandng" is one edit (a missing "u") from
      "Bandung", so their similarity is 1 - 1/7. The matrix is filled two
      rows at a time. */
  lemma BandngBandung()
    ensures Similarity("bandng", "Bandung") == 1.0 - 1.0 / 7.0
  {
    var a, b := "bandng", "bandung";
    assert Lower("Bandung") == b;
    assert Lower(a) == a;
    BandngDistance();
  }

  lemma BandngDistance()
    ensures Distance("bandng", "bandung") == 1
  {
    var a, b := "bandng", "bandung";
    BandngRow4();
    assert Cell(a, b, 5, 1) == 4;
    assert Cell(a, b, 5, 2) == 3;
    assert Cell(a, b, 5, 3) == 2;
    assert Cell(a, b, 5, 4) == 1;
    assert Cell(a, b, 5, 5) == 1;
    assert Cell(a, b, 5, 6) == 1;
    assert Cell(a, b, 5, 7) == 2;
    assert Cell(a, b, 6, 1) == 5;
    assert Cell(a, b, 6, 2) == 4;
    assert Cell(a, b, 6, 3) == 3;
    assert Cell(a, b, 6, 4) == 2;
    assert Cell(a, b, 6, 5) == 2;
    assert Cell(a, b, 6, 6) == 2;
    assert Cell(a, b, 6, 7) == 1;
  }

  lemma BandngRow2()
    ensures Cell("bandng", "bandung", 2, 1) == 1
    ensures Cell("bandng", "bandung", 2, 2) == 0
    ensures Cell("bandng", "bandung", 2, 3) == 1
    ensures Cell("bandng", "bandung", 2, 4) == 2
    ensures Cell("bandng", "bandung", 2, 5) == 3
    ensures Cell("bandng", "bandung", 2, 6) == 4
    ensures Cell("bandng", "bandung", 2, 7) == 5
  {
    var a, b := "bandng", "bandung";
    assert Cell(a, b, 1, 1) == 0;
    assert Cell(a, b, 1, 2) == 1;
    assert Cell(a, b, 1, 3) == 2;
    assert Cell(a, b, 1, 4) == 3;
    assert Cell(a, b, 1, 5) == 4;
    assert Cell(a, b, 1, 6) == 5;
    assert Cell(a, b, 1, 7) == 6;
    assert Cell(a, b, 2, 1) == 1;
    assert Cell(a, b, 2, 2) == 0;
    assert Cell(a, b, 2, 3) == 1;
    assert Cell(a, b, 2, 4) == 2;
    assert Cell(a, b, 2, 5) == 3;
    assert Cell(a, b, 2, 6) == 4;
    assert Cell(a, b, 2, 7) == 5;
  }

  lemma BandngRow4()
    ensures Cell("bandng", "bandung", 4, 1) == 3
    ensures Cell("bandng", "bandung", 4, 2) == 2
    ensures Cell("bandng", "bandung", 4, 3) == 1
    ensures Cell("bandng", "bandung", 4, 4) == 0
    ensures Cell("bandng", "bandung", 4, 5) == 1
    ensures Cell("bandng", "bandung", 4, 6) == 2
    ensures Cell("bandng", "bandung", 4, 7) == 3
  {
    var a, b := "bandng", "bandung";
    BandngRow2();
    assert Cell(a, b, 3, 1) == 2;
    assert Cell(a, b, 3, 2) == 1;
    assert Cell(a, b, 3, 3) == 0;
    assert Cell(a, b, 3, 4) == 1;
    assert Cell(a, b, 3, 5) == 2;
    assert Cell(a, b, 3, 6) == 3;
    assert Cell(a, b, 3, 7) == 4;
    assert Cell(a, b, 4, 1) == 3;
    assert Cell(a, b, 4, 2) == 2;
    assert Cell(a, b, 4, 3) == 1;
    assert Cell(a, b, 4, 4) == 0;
    assert Cell(a, b, 4, 5) == 1;
    assert Cell(a, b, 4, 6) == 2;
    assert Cell(a, b, 4, 7) == 3;
  }

  // ================================================================ containment

  /** `containsSubstring`: one lower-cased string includes the other. */
  function ContainsSubstring(str1: string, str2: string): bool {
    var s1, s2 := Lower(str1), Lower(str2);
    Includes(s1, s2) || Includes(s2, s1)
  }

  /** Containment holds exactly when one lower-cased string occurs inside
      the other. */
  lemma ContainsSubstringIff(a: string, b: string)
    ensures ContainsSubstring(a, b) <==>
      (exists i :: OccursAt(Lower(a), Lower(b), i)) || (exists i :: OccursAt(Lower(b), Lower(a), i))
  {
    IncludesIff(Lower(a), Lower(b));
    IncludesIff(Lower(b), Lower(a));
  }

  /** Containment is symmetric and blind to case. */
  lemma ContainsSubstringSymmetric(a: string, b: string)
    ensures ContainsSubstring(a, b) == ContainsSubstring(b, a)
    ensures ContainsSubstring(Lower(a), b) == ContainsSubstring(a, b)
  {
    LowerIdempotent(a);
  }

  /** The empty string is contained in, and contains itself in, everything:
      an empty city matches every query. */
  lemma ContainsEmpty(a: string)
    ensures ContainsSubstring(a, "")
  {
    IncludesEmpty(Lower(a));
  }

  /** Equal strings up to case contain each other. */
  lemma SameLowerContains(a: string, b: string)
    requires Lower(a) == Lower(b)
    ensures ContainsSubstring(a, b)
  {
    var s := Lower(a);
    assert s[..|s|] == s;
  }

  // ================================================================ ranking

  /** The score of one place: city containment gives 1.0, otherwise
      province containment gives 0.8, otherwise the better similarity if
      it reaches the threshold, otherwise 0 (the place is dropped). */
  function Score(query: string, p: Place, threshold: real): (score: real)
    ensures 0.0 <= score <= 1.0
  {
    if ContainsSubstring(query, p.kota) then 1.0
    else if ContainsSubstring(query, p.provinsi) then 0.8
    else
      var combined := RealMax(Similarity(query, p.kota), Similarity(query, p.provinsi));
      if combined >= threshold then combined else 0.0
  }

  function RealMax(x: real, y: real): real {
    if x >= y then x else y
  }

  /** A place scores the full 1.0 exactly when its city and the query
      contain one another: a perfect similarity always comes with
      containment, so the similarity tier never reaches 1.0. */
  lemma ScoreOneIff(query: string, p: Place, threshold: real)
    ensures Score(query, p, threshold) == 1.0 <==> ContainsSubstring(query, p.kota)
  {
    if !ContainsSubstring(query, p.kota) && !ContainsSubstring(query, p.provinsi) {
      SimilarityOneIff(query, p.kota);
      SimilarityOneIff(query, p.provinsi);
      if Lower(query) == Lower(p.kota) {
        SameLowerContains(query, p.kota);
      }
      if Lower(query) == Lower(p.provinsi) {
        SameLowerContains(query, p.provinsi);
      }
    }
  }

  /** A place with an empty city name scores 1.0 for every query, because
      every string includes the empty string. */
  lemma EmptyCityAlwaysScoresOne(query: string, provinsi: string, threshold: real)
    ensures Score(query, Place("", provinsi), threshold) == 1.0
  {
    ContainsEmpty(query);
  }

  /** The results kept by the scan, in place order: every place whose score
      is positive. */
  function Kept(places: seq<Place>, query: string, threshold: real): seq<SearchResult>
    decreases |places|
  {
    if places == [] then []
    else
      var p := places[|places| - 1];
      var score := Score(query, p, threshold);
      Kept(places[..|places| - 1], query, threshold)
        + (if score > 0.0 then [SearchResult(p.kota, p.provinsi, score)] else [])
  }

  function PlaceOf(r: SearchResult): Place {
    Place(r.kota, r.provinsi)
  }

  /** Every kept result stands for a place of the list, carries that place's
      score, and the score is positive. */
  lemma {:induction false} KeptSound(places: seq<Place>, query: string, threshold: real)
    ensures forall r :: r in Kept(places, query, threshold) ==>
      PlaceOf(r) in places && r.score == Score(query, PlaceOf(r), threshold) && 0.0 < r.score
    decreases |places|
  {
    if places != [] {
      var init := places[..|places| - 1];
      KeptSound(init, query, threshold);
      assert forall p :: p in init ==> p in places;
    }
  }

  /** Every place with a positive score is kept. */
  lemma {:induction false} KeptComplete(places: seq<Place>, query: string, threshold: real, i: nat)
    requires i < |places| && Score(query, places[i], threshold) > 0.0
    ensures SearchResult(places[i].kota, places[i].provinsi, Score(query, places[i], threshold))
      in Kept(places, query, threshold)
    decreases |places|
  {
    if i < |places| - 1 {
      var init := places[..|places| - 1];
      KeptComplete(init, query, threshold, i);
    }
  }

  // ================================================================ sorting

  predicate SortedByScore(s: seq<SearchResult>) {
    forall i, j :: 0 <= i < j < |s| ==> s[i].score >= s[j].score
  }

  /** Places `x` in front of the first element it scores at least as high
      as, so that it stays ahead of equal scores that came after it. */
  function InsertByScore(x: SearchResult, s: seq<SearchResult>): seq<SearchResult>
    decreases |s|
  {
    if s == [] || x.score >= s[0].score then [x] + s
    else [s[0]] + InsertByScore(x, s[1..])
  }

  /** `results.sort((a, b) => b.score - a.score)`: a stable sort by
      descending score (the comparator of a stable `Array.prototype.sort`). */
  function SortByScore(s: seq<SearchResult>): seq<SearchResult>
    decreases |s|
  {
    if s == [] then [] else InsertByScore(s[0], SortByScore(s[1..]))
  }

  /** The subsequence of results with score `v`. */
  function WithScore(s: seq<SearchResult>, v: real): seq<SearchResult>
    decreases |s|
  {
    if s == [] then []
    else (if s[0].score == v then [s[0]] else []) + WithScore(s[1..], v)
  }

  lemma {:induction false} InsertMultiset(x: SearchResult, s: seq<SearchResult>)
    ensures multiset(InsertByScore(x, s)) == multiset(s) + multiset{x}
    decreases |s|
  {
    if s != [] && x.score < s[0].score {
      InsertMultiset(x, s[1..]);
      assert s == [s[0]] + s[1..];
    }
  }

  /** Every element of an insertion is the inserted one or an old one. */
  lemma InsertElements(x: SearchResult, s: seq<SearchResult>)
    ensures forall y :: y in InsertByScore(x, s) ==> y == x || y in s
  {
    InsertMultiset(x, s);
    forall y | y in InsertByScore(x, s) ensures y == x || y in s {
      assert y in multiset(InsertByScore(x, s));
    }
  }

  lemma {:induction false} InsertSorted(x: SearchResult, s: seq<SearchResult>)
    requires SortedByScore(s)
    ensures SortedByScore(InsertByScore(x, s))
    decreases |s|
  {
    if s != [] && x.score < s[0].score {
      var t := InsertByScore(x, s[1..]);
      InsertSorted(x, s[1..]);
      InsertElements(x, s[1..]);
      assert forall y :: y in t ==> s[0].score >= y.score;
      assert forall k :: 0 <= k < |t| ==> t[k] in t;
      assert InsertByScore(x, s) == [s[0]] + t;
    }
  }

  /** The sort returns its input ordered by non-increasing score. */
  lemma {:induction false} SortByScoreSorted(s: seq<SearchResult>)
    ensures SortedByScore(SortByScore(s))
    ensures multiset(SortByScore(s)) == multiset(s)
    decreases |s|
  {
    if s != [] {
      SortByScoreSorted(s[1..]);
      InsertSorted(s[0], SortByScore(s[1..]));
      InsertMultiset(s[0], SortByScore(s[1..]));
      assert s == [s[0]] + s[1..];
    }
  }

  lemma {:induction false} InsertStable(x: SearchResult, s: seq<SearchResult>, v: real)
    requires SortedByScore(s)
    ensures WithScore(InsertByScore(x, s), v) == (if x.score == v then [x] else []) + WithScore(s, v)
    decreases |s|
  {
    var r := InsertByScore(x, s);
    if s == [] || x.score >= s[0].score {
      assert r[0] == x && r[1..] == s;
    } else {
      InsertStable(x, s[1..], v);
      assert r[0] == s[0] && r[1..] == InsertByScore(x, s[1..]);
    }
  }

  /** The sort is stable: the results of any one score come out in the
      order they went in. Together with sortedness this determines the
      sorted list completely. */
  lemma {:induction false} SortByScoreStable(s: seq<SearchResult>, v: real)
    ensures WithScore(SortByScore(s), v) == WithScore(s, v)
    decreases |s|
  {
    if s != [] {
      SortByScoreStable(s[1..], v);
      SortByScoreSorted(s[1..]);
      InsertStable(s[0], SortByScore(s[1..]), v);
    }
  }

  // ================================================================ slicing

  /** Where `slice(0, limit)` ends on a list of length `n`: a negative limit
      counts from the end, a non-negative one is capped at `n`. */
  function SliceEnd(n: nat, limit: int): (e: nat)
    ensures e <= n
    ensures 0 <= limit ==> e == (if limit < n then limit else n)
    ensures limit < 0 ==> e == (if n + limit < 0 then 0 else n + limit)
  {
    if limit < 0 then (if n + limit < 0 then 0 else n + limit)
    else if limit < n then limit else n
  }

  function JsSlice(s: seq<SearchResult>, limit: int): seq<SearchResult> {
    s[..SliceEnd(|s|, limit)]
  }

  // ================================================================ search

  /** `searchKota` on a list of places: nothing for a query shorter than two
      characters once trimmed; otherwise the kept results of the untrimmed
      query, stably sorted by score and cut at `limit`. */
  function Search(places: seq<Place>, query: string, limit: int, threshold: real): seq<SearchResult> {
    if |Trim(query)| < 2 then []
    else JsSlice(SortByScore(Kept(places, query, threshold)), limit)
  }

  /** A prefix of a sorted list is sorted and holds only elements of the
      list. */
  lemma PrefixOfSorted(s: seq<SearchResult>, e: nat)
    requires SortedByScore(s) && e <= |s|
    ensures SortedByScore(s[..e])
    ensures forall r :: r in s[..e] ==> r in s
  {
    assert forall k :: 0 <= k < e ==> s[..e][k] == s[k];
  }

  /** What a search returns: nothing for a short query; otherwise at most
      `limit` results (for a non-negative limit), ordered by non-increasing
      score, each one a listed place carrying its own positive score. */
  lemma SearchSound(places: seq<Place>, query: string, limit: int, threshold: real)
    ensures var res := Search(places, query, limit, threshold);
      && (|Trim(query)| < 2 ==> res == [])
      && (0 <= limit ==> |res| <= limit)
      && SortedByScore(res)
      && forall r :: r in res ==>
           PlaceOf(r) in places && r.score == Score(query, PlaceOf(r), threshold) && 0.0 < r.score <= 1.0
  {
    if |Trim(query)| >= 2 {
      var kept := Kept(places, query, threshold);
      var sorted := SortByScore(kept);
      SortByScoreSorted(kept);
      KeptSound(places, query, threshold);
      var e := SliceEnd(|sorted|, limit);
      PrefixOfSorted(sorted, e);
      forall r | r in sorted ensures r in kept {
        assert r in multiset(sorted);
      }
    }
  }

  /** How much the cut keeps: for a query of two or more characters, the
      first `min(limit, k)` of the `k` kept results once sorted (for a
      negative limit, all but the last `-limit`). */
  lemma SearchCut(places: seq<Place>, query: string, limit: int, threshold: real)
    requires |Trim(query)| >= 2
    ensures var res := Search(places, query, limit, threshold);
      var k := |Kept(places, query, threshold)|;
      && (0 <= limit ==> |res| == (if limit < k then limit else k))
      && (limit < 0 ==> |res| == (if k + limit < 0 then 0 else k + limit))
      && res == SortByScore(Kept(places, query, threshold))[..|res|]
  {
    SortLength(Kept(places, query, threshold));
  }

  /** Sorting keeps the number of results. */
  lemma SortLength(s: seq<SearchResult>)
    ensures |SortByScore(s)| == |s|
  {
    SortByScoreSorted(s);
    assert |SortByScore(s)| == |multiset(SortByScore(s))| == |multiset(s)| == |s|;
  }

  /** The cut keeps the best: a kept result left out of the returned prefix
      scores no higher than any returned one. */
  lemma SearchKeepsBest(places: seq<Place>, query: string, limit: int, threshold: real, x: SearchResult)
    requires |Trim(query)| >= 2
    requires x in multiset(Kept(places, query, threshold)) - multiset(Search(places, query, limit, threshold))
    ensures forall r :: r in Search(places, query, limit, threshold) ==> x.score <= r.score
  {
    var kept := Kept(places, query, threshold);
    var sorted := SortByScore(kept);
    SortByScoreSorted(kept);
    var e := SliceEnd(|sorted|, limit);
    var res, rest := sorted[..e], sorted[e..];
    assert res == Search(places, query, limit, threshold);
    CutScores(sorted, e, x);
  }

  lemma CutScores(sorted: seq<SearchResult>, e: nat, x: SearchResult)
    requires SortedByScore(sorted) && e <= |sorted|
    requires x in multiset(sorted) - multiset(sorted[..e])
    ensures forall r :: r in sorted[..e] ==> x.score <= r.score
  {
    assert sorted == sorted[..e] + sorted[e..];
    assert multiset(sorted) == multiset(sorted[..e]) + multiset(sorted[e..]);
    assert x in multiset(sorted[e..]);
    var j :| 0 <= j < |sorted[e..]| && sorted[e..][j] == x;
    assert sorted[e + j] == x;
    forall r | r in sorted[..e] ensures x.score <= r.score {
      var i :| 0 <= i < e && sorted[..e][i] == r;
      assert sorted[i] == r;
    }
  }

  /** A place whose city contains the query (or is contained in it) is
      found with score 1.0 before the cut, whatever its similarity. */
  lemma CityMatchScoresOne(places: seq<Place>, query: string, threshold: real, i: nat)
    requires i < |places| && ContainsSubstring(query, places[i].kota)
    ensures SearchResult(places[i].kota, places[i].provinsi, 1.0) in Kept(places, query, threshold)
  {
    KeptComplete(places, query, threshold, i);
  }

  /** A place matched only through its province is found with score 0.8. */
  lemma ProvinceMatchScoresPointEight(places: seq<Place>, query: string, threshold: real, i: nat)
    requires i < |places| && !ContainsSubstring(query, places[i].kota)
    requires ContainsSubstring(query, places[i].provinsi)
    ensures SearchResult(places[i].kota, places[i].provinsi, 0.8) in Kept(places, query, threshold)
  {
    KeptComplete(places, query, threshold, i);
  }

  /** A place with no containment match and both similarities below the
      threshold is not among the results at all. */
  lemma BelowThresholdExcluded(places: seq<Place>, query: string, limit: int, threshold: real, p: Place)
    requires !ContainsSubstring(query, p.kota) && !ContainsSubstring(query, p.provinsi)
    requires Similarity(query, p.kota) < threshold && Similarity(query, p.provinsi) < threshold
    ensures forall r :: r in Search(places, query, limit, threshold) ==> PlaceOf(r) != p
  {
    SearchSound(places, query, limit, threshold);
  }

  // ================================================================ lookup

  predicate ProvinceMatches(r: Region, province: string) {
    Lower(r.provinsi) == Lower(province)
  }

  /** `regions.find(...)`: the index of the first region whose province
      equals `province` ignoring case. */
  function FindProvince(rs: seq<Region>, province: string): (found: Option<nat>)
    ensures found.Some? ==> found.value < |rs| && ProvinceMatches(rs[found.value], province)
    ensures found.Some? ==> forall j :: 0 <= j < found.value ==> !ProvinceMatches(rs[j], province)
    ensures found.None? ==> forall j :: 0 <= j < |rs| ==> !ProvinceMatches(rs[j], province)
    decreases |rs|
  {
    if rs == [] then None
    else if ProvinceMatches(rs[0], province) then Some(0)
    else match FindProvince(rs[1..], province)
      case None => None
      case Some(i) => Some(i + 1)
  }

  // ================================================================ service

  /** The service object: the regions as loaded and their flattening. */
  class RegionService {
    var regions: seq<Region>
    var allKota: seq<Place>

    /** The flattened list is the flattening of the loaded regions. */
    ghost predicate Valid()
      reads this
    {
      allKota == Flatten(regions)
    }

    /** Builds the service over the bundled region list, given here as a
        parameter. */
    constructor (regionJson: seq<Region>)
      ensures Valid() && regions == regionJson
    {
      regions := [];
      allKota := [];
      new;
      LoadRegions(regionJson);
    }

    /** `loadRegions`: keep the regions and rebuild the flattened list with
        one trimmed place per city, region by region. */
    method LoadRegions(regionJson: seq<Region>)
      modifies this
      ensures regions == regionJson && allKota == Flatten(regionJson)
    {
      regions := regionJson;
      allKota := [];
      for r := 0 to |regions|
        invariant regions == regionJson
        invariant allKota == Flatten(regions[..r])
      {
        var region := regions[r];
        for k := 0 to |region.kota|
          invariant regions == regionJson
          invariant allKota == Flatten(regions[..r]) + RegionPlaces(region)[..k]
        {
          allKota := allKota + [Place(Trim(region.kota[k]), region.provinsi)];
        }
        assert RegionPlaces(region)[..|region.kota|] == RegionPlaces(region);
        assert regions[..r + 1][..r] == regions[..r];
      }
      assert regions[..|regions|] == regions;
    }

    /** `levenshteinDistance`: the full `(m+1) x (n+1)` matrix, row 0 and
        column 0 first, then row by row; the result is the bottom-right
        cell. */
    static method LevenshteinDistance(str1: string, str2: string) returns (d: nat)
      ensures d == Distance(str1, str2)
    {
      var m, n := |str1|, |str2|;
      var dp := new nat[m + 1, n + 1];
      for i := 0 to m + 1
        invariant forall i' :: 0 <= i' < i ==> dp[i', 0] == i'
      {
        dp[i, 0] := i;
      }
      for j := 0 to n + 1
        invariant forall i' :: 0 <= i' <= m ==> dp[i', 0] == i'
        invariant forall j' :: 0 <= j' < j ==> dp[0, j'] == j'
      {
        dp[0, j] := j;
      }
      for i := 1 to m + 1
        invariant forall i', j' :: 0 <= i' < i && 0 <= j' <= n ==> dp[i', j'] == Cell(str1, str2, i', j')
        invariant forall i' :: i <= i' <= m ==> dp[i', 0] == i'
      {
        FillRow(dp, str1, str2, i - 1, i);
      }
      d := dp[m, n];
    }

    /** Row `i` of the matrix, left to right, from row `above = i - 1`. */
    static method FillRow(dp: array2<nat>, str1: string, str2: string, above: nat, i: nat)
      requires i == above + 1 && i < dp.Length0 == |str1| + 1 && dp.Length1 == |str2| + 1
      requires forall j' {:trigger dp[above, j']} :: 0 <= j' <= |str2| ==> dp[above, j'] == Cell(str1, str2, above, j')
      requires dp[i, 0] == i
      modifies dp
      ensures forall j' {:trigger dp[i, j']} :: 0 <= j' <= |str2| ==> dp[i, j'] == Cell(str1, str2, i, j')
      ensures forall i', j' :: 0 <= i' < dp.Length0 && i' != i && 0 <= j' < dp.Length1 ==> dp[i', j'] == old(dp[i', j'])
    {
      for j := 1 to |str2| + 1
        invariant forall j' {:trigger dp[i, j']} :: 0 <= j' < j ==> dp[i, j'] == Cell(str1, str2, i, j')
        invariant forall j' {:trigger dp[above, j']} :: 0 <= j' <= |str2| ==> dp[above, j'] == Cell(str1, str2, above, j')
        invariant forall i', j' :: 0 <= i' < dp.Length0 && i' != i && 0 <= j' < dp.Length1 ==> dp[i', j'] == old(dp[i', j'])
      {
        var left, up, diag := dp[i, j - 1], dp[above, j], dp[above, j - 1];
        CellUnfold(str1, str2, i, j);
        if str1[i - 1] == str2[j - 1] {
          dp[i, j] := diag;
        } else {
          dp[i, j] := 1 + Min3(up, left, diag);
        }
      }
    }

    /** `calculateSimilarity`, computed with the matrix method. */
    static method CalculateSimilarity(str1: string, str2: string) returns (sim: real)
      ensures sim == Similarity(str1, str2)
      ensures 0.0 <= sim <= 1.0
    {
      var s1 := Lower(str1);
      var s2 := Lower(str2);
      var distance := LevenshteinDistance(s1, s2);
      var maxLen := Max(|s1|, |s2|);
      if maxLen == 0 {
        return 1.0;
      }
      sim := 1.0 - (distance as real) / (maxLen as real);
    }

    /** `searchKota`: scan every place with the untrimmed query, keep the
        positive scores, sort them stably by descending score and cut the
        list at `limit` the way `slice(0, limit)` does. */
    method SearchKota(query: string, limit: int, threshold: real) returns (res: seq<SearchResult>)
      ensures res == Search(allKota, query, limit, threshold)
      ensures |Trim(query)| < 2 ==> res == []
      ensures 0 <= limit ==> |res| <= limit
      ensures |Trim(query)| >= 2 && 0 <= limit ==>
        |res| == (if limit < |Kept(allKota, query, threshold)| then limit else |Kept(allKota, query, threshold)|)
      ensures SortedByScore(res)
      ensures forall r :: r in res ==> PlaceOf(r) in allKota && 0.0 < r.score <= 1.0
    {
      SearchSound(allKota, query, limit, threshold);
      if |Trim(query)| >= 2 {
        SearchCut(allKota, query, limit, threshold);
      }
      if |Trim(query)| < 2 {
        return [];
      }
      var results: seq<SearchResult> := [];
      // computed by the source and never used afterwards
      var normalizedQuery := Lower(Trim(query));
      for i := 0 to |allKota|
        invariant results == Kept(allKota[..i], query, threshold)
      {
        var item := allKota[i];
        var kotaSimilarity := CalculateSimilarity(query, item.kota);
        var provinsiSimilarity := CalculateSimilarity(query, item.provinsi);
        var combinedSimilarity := RealMax(kotaSimilarity, provinsiSimilarity);
        var kotaContains := ContainsSubstring(query, item.kota);
        var provinsiContains := ContainsSubstring(query, item.provinsi);
        var score := 0.0;
        if kotaContains {
          score := 1.0;
        } else if provinsiContains {
          score := 0.8;
        } else if combinedSimilarity >= threshold {
          score := combinedSimilarity;
        }
        if score > 0.0 {
          results := results + [SearchResult(item.kota, item.provinsi, score)];
        }
        assert allKota[..i + 1][..i] == allKota[..i];
      }
      assert allKota[..|allKota|] == allKota;
      results := SortByScore(results);
      res := JsSlice(results, limit);
    }

    /** `getAllProvinces`: one province name per region, in order. */
    function GetAllProvinces(): (names: seq<string>)
      reads this
      ensures |names| == |regions|
      ensures forall i :: 0 <= i < |regions| ==> names[i] == regions[i].provinsi
    {
      seq(|regions|, i reads this requires 0 <= i < |regions| => regions[i].provinsi)
    }

    /** `getKotaByProvince`: the city list (as stored, untrimmed) of the first
        region whose province matches ignoring case, or nothing. */
    function GetKotaByProvince(province: string): (cities: seq<string>)
      reads this
      ensures forall j :: (0 <= j < |regions| && ProvinceMatches(regions[j], province) &&
        forall i :: 0 <= i < j ==> !ProvinceMatches(regions[i], province)) ==> cities == regions[j].kota
      ensures (forall j :: 0 <= j < |regions| ==> !ProvinceMatches(regions[j], province)) ==> cities == []
    {
      match FindProvince(regions, province)
      case Some(i) => regions[i].kota
      case None => []
    }

    /** `getAllKota`: the flattened list, which is the flattening of the
        regions. */
    function GetAllKota(): (places: seq<Place>)
      reads this
      requires Valid()
      ensures places == Flatten(regions)
    {
      allKota
    }
  }

  /** Looking a province up ignores case: "JAWA BARAT" and "jawa barat"
      give the same cities. */
  lemma KotaByProvinceIgnoresCase(svc: RegionService, p: string, q: string)
    requires Lower(p) == Lower(q)
    ensures svc.GetKotaByProvince(p) == svc.GetKotaByProvince(q)
  {
    var rs := svc.regions;
    assert forall j :: 0 <= j < |rs| ==> (ProvinceMatches(rs[j], p) <==> ProvinceMatches(rs[j], q));
    match FindProvince(rs, p)
    case Some(i) =>
    case None =>
  }
}
