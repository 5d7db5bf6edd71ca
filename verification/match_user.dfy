/** The match score between two users: common interests and common preferences,
    each counted over all pairs of list positions, scaled to at most 50 points
    each. A match record is created when the score reaches the threshold. */
module MatchUser {

  /** A float64 score, reduced to what it can be here: a finite value, or the
      NaN of 0/0 when one category is empty on both sides and the other is not. */
  datatype Score = NaN | Value(v: real)

  const MatchThreshold: real := 50.0

  /** How many positions of `b` hold `x`. */
  function Occurrences(b: seq<string>, x: string): nat
  {
    if b == [] then 0 else Occurrences(b[..|b| - 1], x) + (if b[|b| - 1] == x then 1 else 0)
  }

  /** How many position pairs (i, j) have a[i] == b[j]: duplicates count as
      often as they pair up. */
  function CommonPairs(a: seq<string>, b: seq<string>): nat
  {
    if a == [] then 0 else CommonPairs(a[..|a| - 1], b) + Occurrences(b, a[|a| - 1])
  }

  /** `float64(common*2) / float64(total) * 50`. */
  function Ratio(common: nat, total: nat): Score
    requires total == 0 ==> common == 0
  {
    if total == 0 then NaN else Value((common * 2) as real / total as real * 50.0)
  }

  /** Float addition, where NaN absorbs. */
  function Plus(x: Score, y: Score): Score
  {
    if x.NaN? || y.NaN? then NaN else Value(x.v + y.v)
  }

  /** The score of two profiles: 0 when all four lists are empty, otherwise
      the interest part plus the preference part. */
  function MatchScore(interests1: seq<string>, preferences1: seq<string>,
                      interests2: seq<string>, preferences2: seq<string>): Score
  {
    var totalInterests := |interests1| + |interests2|;
    var totalPreferences := |preferences1| + |preferences2|;
    if totalInterests == 0 && totalPreferences == 0 then Value(0.0)
    else Plus(Ratio(CommonPairs(interests1, interests2), totalInterests),
              Ratio(CommonPairs(preferences1, preferences2), totalPreferences))
  }

  /** `score >= 50`; a NaN score compares false. */
  predicate CreatesMatch(score: Score)
  {
    score.Value? && score.v >= MatchThreshold
  }

  /** The nested loops that count equal pairs. */
  method CountCommonPairs(a: seq<string>, b: seq<string>) returns (count: nat)
    ensures count == CommonPairs(a, b)
    ensures count == |EqualPairs(a, b)|
  {
    count := 0;
    for i := 0 to |a|
      invariant count == CommonPairs(a[..i], b)
    {
      for j := 0 to |b|
        invariant count == CommonPairs(a[..i], b) + Occurrences(b[..j], a[i])
      {
        assert b[..j + 1][..j] == b[..j];
        if a[i] == b[j] {
          count := count + 1;
        }
      }
      assert b[..|b|] == b;
      assert a[..i + 1][..i] == a[..i];
    }
    assert a[..|a|] == a;
    CommonPairsCountsEqualPairs(a, b);
  }

  method CalculateMatchScore(interests1: seq<string>, preferences1: seq<string>,
                             interests2: seq<string>, preferences2: seq<string>)
    returns (score: Score)
    ensures score == MatchScore(interests1, preferences1, interests2, preferences2)
  {
    var commonInterests := CountCommonPairs(interests1, interests2);
    var commonPreferences := CountCommonPairs(preferences1, preferences2);

    var totalInterests := |interests1| + |interests2|;
    var totalPreferences := |preferences1| + |preferences2|;

    if totalInterests == 0 && totalPreferences == 0 {
      return Value(0.0);
    }

    var interestScore := Ratio(commonInterests, totalInterests);
    var preferenceScore := Ratio(commonPreferences, totalPreferences);
    return Plus(interestScore, preferenceScore);
  }

  // ---------------------------------------------------------------------------
  // Properties of the score.

  ghost predicate Distinct(s: seq<string>)
  {
    forall i, j :: 0 <= i < j < |s| ==> s[i] != s[j]
  }

  lemma {:induction false} OccurrencesAbsent(b: seq<string>, x: string)
    requires x !in b
    ensures Occurrences(b, x) == 0
  {
    if b != [] {
      assert x !in b[..|b| - 1];
      OccurrencesAbsent(b[..|b| - 1], x);
    }
  }

  lemma {:induction false} OccurrencesAtMostOne(b: seq<string>, x: string)
    requires Distinct(b)
    ensures Occurrences(b, x) <= 1
  {
    if b != [] {
      var init := b[..|b| - 1];
      if b[|b| - 1] == x {
        assert x !in init;
        OccurrencesAbsent(init, x);
      } else {
        OccurrencesAtMostOne(init, x);
      }
    }
  }

  /** The index pairs (i, j) with a[i] == b[j]: what the nested loops count. */
  ghost function EqualPairs(a: seq<string>, b: seq<string>): set<(int, int)>
  {
    set i, j | 0 <= i < |a| && 0 <= j < |b| && a[i] == b[j] :: (i, j)
  }

  ghost function RowPairs(i: int, b: seq<string>, x: string): set<(int, int)>
  {
    set j | 0 <= j < |b| && b[j] == x :: (i, j)
  }

  lemma {:induction false} RowPairsCount(i: int, b: seq<string>, x: string)
    ensures |RowPairs(i, b, x)| == Occurrences(b, x)
  {
    if b == [] {
      assert RowPairs(i, b, x) == {};
    } else {
      var init := b[..|b| - 1];
      RowPairsCount(i, init, x);
      if b[|b| - 1] == x {
        assert RowPairs(i, b, x) == RowPairs(i, init, x) + {(i, |b| - 1)};
      } else {
        assert RowPairs(i, b, x) == RowPairs(i, init, x);
      }
    }
  }

  /** The recursive count is the number of equal index pairs, duplicates included. */
  lemma {:induction false} CommonPairsCountsEqualPairs(a: seq<string>, b: seq<string>)
    ensures CommonPairs(a, b) == |EqualPairs(a, b)|
  {
    if a == [] {
      assert EqualPairs(a, b) == {};
    } else {
      var n := |a| - 1;
      var init := a[..n];
      CommonPairsCountsEqualPairs(init, b);
      RowPairsCount(n, b, a[n]);
      assert EqualPairs(a, b) == EqualPairs(init, b) + RowPairs(n, b, a[n]);
      assert EqualPairs(init, b) !! RowPairs(n, b, a[n]);
    }
  }

  /** Appending y to the second list adds the occurrences of y in the first. */
  lemma {:induction false} CommonPairsSnoc(a: seq<string>, b: seq<string>, y: string)
    ensures CommonPairs(a, b + [y]) == CommonPairs(a, b) + Occurrences(a, y)
  {
    if a != [] {
      var init := a[..|a| - 1];
      CommonPairsSnoc(init, b, y);
      assert (b + [y])[..|b + [y]| - 1] == b;
    }
  }

  lemma {:induction false} CommonPairsWithEmpty(a: seq<string>)
    ensures CommonPairs(a, []) == 0
  {
    if a != [] {
      CommonPairsWithEmpty(a[..|a| - 1]);
    }
  }

  /** Counting equal pairs does not depend on which list comes first. */
  lemma {:induction false} CommonPairsSymmetric(a: seq<string>, b: seq<string>)
    ensures CommonPairs(a, b) == CommonPairs(b, a)
  {
    if b == [] {
      CommonPairsWithEmpty(a);
    } else {
      var init := b[..|b| - 1];
      CommonPairsSymmetric(a, init);
      CommonPairsSnoc(a, init, b[|b| - 1]);
      assert init + [b[|b| - 1]] == b;
    }
  }

  /** Against a list without duplicates, each element pairs at most once. */
  lemma {:induction false} CommonPairsAtMostLength(a: seq<string>, b: seq<string>)
    requires Distinct(b)
    ensures CommonPairs(a, b) <= |a|
  {
    if a != [] {
      CommonPairsAtMostLength(a[..|a| - 1], b);
      OccurrencesAtMostOne(b, a[|a| - 1]);
    }
  }

  /** Without duplicates, twice the common count is at most the total. */
  lemma CommonPairsBound(a: seq<string>, b: seq<string>)
    requires Distinct(a) && Distinct(b)
    ensures 2 * CommonPairs(a, b) <= |a| + |b|
  {
    CommonPairsAtMostLength(a, b);
    CommonPairsSymmetric(a, b);
    CommonPairsAtMostLength(b, a);
  }

  /** A duplicate-free list pairs with itself exactly once per element. */
  lemma {:induction false} SelfPairs(a: seq<string>)
    requires Distinct(a)
    ensures CommonPairs(a, a) == |a|
  {
    if a != [] {
      var init := a[..|a| - 1];
      var x := a[|a| - 1];
      assert init + [x] == a;
      assert Distinct(init) && x !in init;
      SelfPairs(init);
      CommonPairsSnoc(init, init, x);
      OccurrencesAbsent(init, x);
      // CommonPairs(a, a) = CommonPairs(init, a) + Occurrences(a, x)
      assert Occurrences(a, x) == Occurrences(init, x) + 1;
    }
  }

  /** Swapping the two users changes nothing. */
  lemma ScoreSymmetric(interests1: seq<string>, preferences1: seq<string>,
                       interests2: seq<string>, preferences2: seq<string>)
    ensures MatchScore(interests1, preferences1, interests2, preferences2)
            == MatchScore(interests2, preferences2, interests1, preferences1)
  {
    CommonPairsSymmetric(interests1, interests2);
    CommonPairsSymmetric(preferences1, preferences2);
    assert |interests1| + |interests2| == |interests2| + |interests1|;
    assert |preferences1| + |preferences2| == |preferences2| + |preferences1|;
  }

  /** The score is NaN exactly when one category is empty on both sides and
      the other is not; with all four lists empty it is 0. */
  lemma ScoreNaNExactly(interests1: seq<string>, preferences1: seq<string>,
                        interests2: seq<string>, preferences2: seq<string>)
    ensures MatchScore(interests1, preferences1, interests2, preferences2).NaN?
            <==> ((|interests1| + |interests2| == 0) != (|preferences1| + |preferences2| == 0))
    ensures |interests1| + |interests2| == 0 && |preferences1| + |preferences2| == 0 ==>
              MatchScore(interests1, preferences1, interests2, preferences2) == Value(0.0)
  {
  }

  /** For duplicate-free lists each part is at most 50, so a finite score lies
      in the documented range 0 to 100. */
  lemma ScoreInRange(interests1: seq<string>, preferences1: seq<string>,
                     interests2: seq<string>, preferences2: seq<string>)
    requires Distinct(interests1) && Distinct(interests2)
    requires Distinct(preferences1) && Distinct(preferences2)
    ensures var s := MatchScore(interests1, preferences1, interests2, preferences2);
            s.Value? ==> 0.0 <= s.v <= 100.0
  {
    CommonPairsBound(interests1, interests2);
    CommonPairsBound(preferences1, preferences2);
    var ti := |interests1| + |interests2|;
    var tp := |preferences1| + |preferences2|;
    if ti > 0 {
      RatioAtMostFifty(CommonPairs(interests1, interests2), ti);
    }
    if tp > 0 {
      RatioAtMostFifty(CommonPairs(preferences1, preferences2), tp);
    }
  }

  lemma RatioAtMostFifty(common: nat, total: nat)
    requires total > 0 && 2 * common <= total
    ensures Ratio(common, total).Value? && 0.0 <= Ratio(common, total).v <= 50.0
  {
    var q := (common * 2) as real / total as real;
    assert q <= 1.0 by {
      assert (common * 2) as real <= total as real;
    }
  }

  /** Two users with the same duplicate-free, non-empty interests and
      preferences score 100 and are matched. */
  lemma IdenticalProfilesMatch(interests: seq<string>, preferences: seq<string>)
    requires Distinct(interests) && Distinct(preferences)
    requires interests != [] && preferences != []
    ensures MatchScore(interests, preferences, interests, preferences) == Value(100.0)
    ensures CreatesMatch(MatchScore(interests, preferences, interests, preferences))
  {
    SelfPairs(interests);
    SelfPairs(preferences);
    RatioOfHalf(|interests|);
    RatioOfHalf(|preferences|);
  }

  lemma RatioOfHalf(n: nat)
    requires n > 0
    ensures Ratio(n, n + n) == Value(50.0)
  {
    var x := (n * 2) as real;
    assert (n + n) as real == x;
    assert x / x == 1.0;
  }

  /** A NaN score, and any score below 50, creates no match. */
  lemma NoMatchBelowThreshold(score: Score)
    requires score.NaN? || score.v < 50.0
    ensures !CreatesMatch(score)
  {
  }
}
