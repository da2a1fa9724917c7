/** Per-prediction attribution ranking of the prediction service: every model
    feature is paired with its attribution score for one row, the pairs are
    sorted by absolute score, largest first, with a stable sort, and the first
    five are kept. */
module Ranking {

  /** One `{"feature": ..., "shap_value": ...}` entry of a prediction. */
  datatype Attribution = Attribution(feature: string, shapValue: real)

  /** How many ranked entries a prediction reports. */
  const TopK: nat := 5

  function Abs(x: real): real {
    if x < 0.0 then -x else x
  }

  /** The sort key: the absolute attribution score. */
  function Magnitude(a: Attribution): real {
    Abs(a.shapValue)
  }

  function Min(a: nat, b: nat): nat {
    if a <= b then a else b
  }

  /** Non-increasing by magnitude. */
  predicate RankedByMagnitude(s: seq<Attribution>) {
    forall i, j :: 0 <= i < j < |s| ==> Magnitude(s[i]) >= Magnitude(s[j])
  }

  /** No feature name occurs in two entries. */
  predicate DistinctFeatures(s: seq<Attribution>) {
    forall i, j :: 0 <= i < j < |s| ==> s[i].feature != s[j].feature
  }

  /** No name occurs twice. */
  predicate DistinctNames(names: seq<string>) {
    forall i, j :: 0 <= i < j < |names| ==> names[i] != names[j]
  }

  /** The entries of `s` whose magnitude is `m`, in their order in `s`. A sort
      is stable when it leaves this subsequence the same for every `m`. */
  function Ties(s: seq<Attribution>, m: real): seq<Attribution> {
    if s == [] then []
    else (if Magnitude(s[0]) == m then [s[0]] else []) + Ties(s[1..], m)
  }

  /** The list comprehension that pairs feature `j` with score `row[j]`. */
  function Attributions(features: seq<string>, row: seq<real>): (r: seq<Attribution>)
    requires |row| >= |features|
    ensures |r| == |features|
    ensures forall j :: 0 <= j < |r| ==> r[j].feature == features[j] && r[j].shapValue == row[j]
    ensures DistinctNames(features) ==> DistinctFeatures(r)
  {
    seq(|features|, j requires 0 <= j < |features| => Attribution(features[j], row[j]))
  }

  /** Places `x` after every entry of `s` with a strictly larger magnitude and
      before the rest, so that `x` precedes the entries it ties with. */
  function Insert(x: Attribution, s: seq<Attribution>): (r: seq<Attribution>)
    ensures |r| == |s| + 1
    ensures multiset(r) == multiset(s) + multiset{x}
  {
    if s == [] || Magnitude(s[0]) <= Magnitude(x) then
      [x] + s
    else
      assert s == [s[0]] + s[1..];
      [s[0]] + Insert(x, s[1..])
  }

  /** Every entry of `Insert(x, s)` is `x` or an entry of `s`. */
  lemma InsertMembers(x: Attribution, s: seq<Attribution>)
    ensures forall a :: a in Insert(x, s) ==> a == x || a in s
  {
    forall a | a in Insert(x, s) ensures a == x || a in s {
      assert a in multiset(Insert(x, s));
    }
  }

  lemma {:induction false} InsertKeepsRanked(x: Attribution, s: seq<Attribution>)
    requires RankedByMagnitude(s)
    ensures RankedByMagnitude(Insert(x, s))
  {
    if s != [] && Magnitude(s[0]) > Magnitude(x) {
      var rest := Insert(x, s[1..]);
      InsertKeepsRanked(x, s[1..]);
      InsertMembers(x, s[1..]);
      assert forall a :: a in rest ==> Magnitude(a) <= Magnitude(s[0]);
      assert Insert(x, s) == [s[0]] + rest;
    }
  }

  lemma {:induction false} InsertKeepsDistinct(x: Attribution, s: seq<Attribution>)
    requires DistinctFeatures(s)
    requires forall a :: a in s ==> a.feature != x.feature
    ensures DistinctFeatures(Insert(x, s))
  {
    if s != [] && Magnitude(s[0]) > Magnitude(x) {
      var rest := Insert(x, s[1..]);
      InsertKeepsDistinct(x, s[1..]);
      InsertMembers(x, s[1..]);
      assert forall a :: a in rest ==> a.feature != s[0].feature;
      assert Insert(x, s) == [s[0]] + rest;
    }
  }

  /** Python's `sorted(..., key=abs, reverse=True)`: descending by magnitude,
      stable. */
  function SortByMagnitude(s: seq<Attribution>): (r: seq<Attribution>)
    ensures |r| == |s|
    ensures multiset(r) == multiset(s)
    ensures RankedByMagnitude(r)
  {
    if s == [] then []
    else
      assert s == [s[0]] + s[1..];
      InsertKeepsRanked(s[0], SortByMagnitude(s[1..]));
      Insert(s[0], SortByMagnitude(s[1..]))
  }

  lemma {:induction false} SortKeepsDistinct(s: seq<Attribution>)
    requires DistinctFeatures(s)
    ensures DistinctFeatures(SortByMagnitude(s))
  {
    if s != [] {
      var rest := SortByMagnitude(s[1..]);
      SortKeepsDistinct(s[1..]);
      forall a | a in rest ensures a.feature != s[0].feature {
        assert a in multiset(rest);
        var j :| 0 <= j < |s[1..]| && s[1..][j] == a;
        assert s[j + 1] == a;
      }
      InsertKeepsDistinct(s[0], rest);
    }
  }

  /** `sorted(...)[:5]`. */
  function TopFeatures(entries: seq<Attribution>): (r: seq<Attribution>)
    ensures |r| == Min(TopK, |entries|)
    ensures r <= SortByMagnitude(entries)
    ensures RankedByMagnitude(r)
  {
    SortByMagnitude(entries)[..Min(TopK, |entries|)]
  }

  /** The ranked entries of one prediction row. */
  function RankRow(features: seq<string>, row: seq<real>): (r: seq<Attribution>)
    requires |row| >= |features|
    ensures |r| == Min(TopK, |features|)
    ensures RankedByMagnitude(r)
    ensures r <= SortByMagnitude(Attributions(features, row))
  {
    TopFeatures(Attributions(features, row))
  }

  lemma {:induction false} TiesOfInsert(x: Attribution, s: seq<Attribution>, m: real)
    ensures Ties(Insert(x, s), m) == (if Magnitude(x) == m then [x] else []) + Ties(s, m)
  {
    if s == [] || Magnitude(s[0]) <= Magnitude(x) {
      assert ([x] + s)[1..] == s;
    } else {
      var rest := Insert(x, s[1..]);
      TiesOfInsert(x, s[1..], m);
      assert ([s[0]] + rest)[1..] == rest;
    }
  }

  /** The sort is stable: among entries of equal magnitude it keeps the input
      order. */
  lemma {:induction false} SortIsStable(s: seq<Attribution>, m: real)
    ensures Ties(SortByMagnitude(s), m) == Ties(s, m)
  {
    if s != [] {
      SortIsStable(s[1..], m);
      TiesOfInsert(s[0], SortByMagnitude(s[1..]), m);
    }
  }

  lemma {:induction false} TiesOfPrefix(s: seq<Attribution>, k: nat, m: real)
    requires k <= |s|
    ensures Ties(s[..k], m) <= Ties(s, m)
  {
    if k > 0 {
      assert s[..k][0] == s[0];
      assert s[..k][1..] == s[1..][..k - 1];
      TiesOfPrefix(s[1..], k - 1, m);
    }
  }

  /** Splitting a sequence splits its multiset. */
  lemma SplitMultiset(s: seq<Attribution>, k: nat)
    requires k <= |s|
    ensures multiset(s) == multiset(s[..k]) + multiset(s[k..])
  {
    assert s == s[..k] + s[k..];
  }

  /** `top_features` has `min(5, n)` entries, all taken from the input, ranked
      by magnitude, and no feature twice when the input has none twice. */
  lemma TopFeaturesSelects(entries: seq<Attribution>)
    ensures |TopFeatures(entries)| == Min(TopK, |entries|)
    ensures multiset(TopFeatures(entries)) <= multiset(entries)
    ensures RankedByMagnitude(TopFeatures(entries))
    ensures DistinctFeatures(entries) ==> DistinctFeatures(TopFeatures(entries))
  {
    var sorted := SortByMagnitude(entries);
    SplitMultiset(sorted, Min(TopK, |entries|));
    if DistinctFeatures(entries) {
      SortKeepsDistinct(entries);
    }
  }

  /** No entry left out of `top_features` has a larger magnitude than one kept. */
  lemma TopFeaturesDominate(entries: seq<Attribution>, e: Attribution, a: Attribution)
    requires e in entries && e !in TopFeatures(entries)
    requires a in TopFeatures(entries)
    ensures Magnitude(e) <= Magnitude(a)
  {
    var sorted := SortByMagnitude(entries);
    var k := Min(TopK, |entries|);
    SplitMultiset(sorted, k);
    assert e in multiset(sorted);
    assert e in multiset(sorted[k..]);
    var q :| 0 <= q < |sorted[k..]| && sorted[k..][q] == e;
    var p :| 0 <= p < k && sorted[..k][p] == a;
    assert sorted[p] == a && sorted[k + q] == e;
  }

  /** Entries of equal magnitude appear in `top_features` in their input order. */
  lemma TopFeaturesStable(entries: seq<Attribution>, m: real)
    ensures Ties(TopFeatures(entries), m) <= Ties(entries, m)
  {
    TiesOfPrefix(SortByMagnitude(entries), Min(TopK, |entries|), m);
    SortIsStable(entries, m);
  }

  /** `top_features` of one row: `min(5, |features|)` entries, each some
      `(features[j], row[j])`, no feature twice when the model's feature names
      are distinct, ranked by magnitude and stable among ties. */
  lemma RankRowSpec(features: seq<string>, row: seq<real>)
    requires |row| >= |features|
    ensures |RankRow(features, row)| == Min(TopK, |features|)
    ensures forall a :: a in RankRow(features, row) ==>
              exists j :: 0 <= j < |features| && a == Attribution(features[j], row[j])
    ensures DistinctNames(features) ==> DistinctFeatures(RankRow(features, row))
    ensures RankedByMagnitude(RankRow(features, row))
    ensures forall m :: Ties(RankRow(features, row), m) <= Ties(Attributions(features, row), m)
  {
    var entries := Attributions(features, row);
    TopFeaturesSelects(entries);
    forall m ensures Ties(RankRow(features, row), m) <= Ties(entries, m) {
      TopFeaturesStable(entries, m);
    }
    forall a | a in RankRow(features, row)
      ensures exists j :: 0 <= j < |features| && a == Attribution(features[j], row[j])
    {
      assert a in multiset(entries);
      var j :| 0 <= j < |entries| && entries[j] == a;
    }
  }

  /** No attribution left out of a row's `top_features` has a larger magnitude
      than one kept. */
  lemma RankRowDominates(features: seq<string>, row: seq<real>)
    requires |row| >= |features|
    ensures forall e, a :: e in Attributions(features, row) && e !in RankRow(features, row) && a in RankRow(features, row)
                           ==> Magnitude(e) <= Magnitude(a)
  {
    var entries := Attributions(features, row);
    forall e, a | e in entries && e !in TopFeatures(entries) && a in TopFeatures(entries)
      ensures Magnitude(e) <= Magnitude(a)
    {
      TopFeaturesDominate(entries, e, a);
    }
  }
}
