/**
 * analyzeData of Main.java: one pass over the merged records that sets the
 * incomplete ones aside and, over the complete ones, counts records and
 * collects ratings per type and keeps the most reviewed record; then one
 * average rating per type.
 */
module Analysis {
  import opened Wrappers
  import opened Records

  /** A key of the per-type maps; the type is null when a JSON record has none. */
  type TypeKey = Option<string>

  /** What analyzeData hands to printResults. */
  datatype Report = Report(
    typeCount: map<TypeKey, nat>,
    avgRatings: map<TypeKey, real>,
    mostReviewed: Option<MergedData>,
    incomplete: seq<MergedData>)

  function TypeOf(d: MergedData): TypeKey
    requires d.IsComplete()
  {
    d.metadata.value.category
  }

  function ReviewsOf(d: MergedData): int
    requires d.IsComplete()
  {
    d.metadata.value.reviews as int
  }

  function RatingOf(d: MergedData): real
    requires d.IsComplete()
  {
    d.metadata.value.rating
  }

  /** d is a complete record of type t. */
  predicate OfType(d: MergedData, t: TypeKey) {
    d.IsComplete() && TypeOf(d) == t
  }

  /** The incomplete records of s, in the order of s. */
  function Incomplete(s: seq<MergedData>): (r: seq<MergedData>)
    ensures |r| <= |s|
  {
    if s == [] then []
    else
      var d := s[|s| - 1];
      Incomplete(s[..|s| - 1]) + if d.IsComplete() then [] else [d]
  }

  /** The incomplete list holds every incomplete record of s and nothing else. */
  lemma {:induction false} IncompleteMembers(s: seq<MergedData>, d: MergedData)
    ensures d in Incomplete(s) <==> d in s && !d.IsComplete()
  {
    if s != [] {
      assert s == s[..|s| - 1] + [s[|s| - 1]];
      IncompleteMembers(s[..|s| - 1], d);
    }
  }

  /** The number of complete records of type t in s. */
  function Count(s: seq<MergedData>, t: TypeKey): (n: nat)
    ensures n <= |s|
  {
    if s == [] then 0 else Count(s[..|s| - 1], t) + if OfType(s[|s| - 1], t) then 1 else 0
  }

  /** The ratings of the complete records of type t, in the order of s: one per counted record. */
  function Ratings(s: seq<MergedData>, t: TypeKey): (r: seq<real>)
    ensures |r| == Count(s, t)
  {
    if s == [] then []
    else
      var d := s[|s| - 1];
      Ratings(s[..|s| - 1], t) + if OfType(d, t) then [RatingOf(d)] else []
  }

  /** The ratings added up from left to right, as the inner loop of the averaging does. */
  function Sum(xs: seq<real>): real {
    if xs == [] then 0.0 else Sum(xs[..|xs| - 1]) + xs[|xs| - 1]
  }

  /**
   * A sum of values between lo and hi lies between |xs| * lo and |xs| * hi,
   * so an average rating lies between the smallest and the largest rating.
   */
  lemma {:induction false} SumBounds(xs: seq<real>, lo: real, hi: real)
    requires forall i :: 0 <= i < |xs| ==> lo <= xs[i] <= hi
    ensures |xs| as real * lo <= Sum(xs) <= |xs| as real * hi
  {
    if xs != [] {
      var init := xs[..|xs| - 1];
      assert forall i :: 0 <= i < |init| ==> init[i] == xs[i];
      SumBounds(init, lo, hi);
      assert |xs| as real * lo == |init| as real * lo + lo;
      assert |xs| as real * hi == |init| as real * hi + hi;
    }
  }

  /**
   * s[k] is the record the strict '>' scan over s[..n] keeps: complete, with
   * more than -1 reviews, at least as many reviews as every complete record
   * of s[..n], and more than every complete record before it.
   */
  ghost predicate IsFirstMaximum(s: seq<MergedData>, n: int, k: int) {
    && 0 <= k < n <= |s|
    && s[k].IsComplete()
    && ReviewsOf(s[k]) > -1
    && (forall j :: 0 <= j < n && s[j].IsComplete() ==> ReviewsOf(s[j]) <= ReviewsOf(s[k]))
    && (forall j :: 0 <= j < k && s[j].IsComplete() ==> ReviewsOf(s[j]) < ReviewsOf(s[k]))
  }

  /** Appending a record to s changes each tally by that record's contribution only. */
  lemma TallySnoc(s: seq<MergedData>, d: MergedData)
    ensures Incomplete(s + [d]) == Incomplete(s) + if d.IsComplete() then [] else [d]
    ensures forall t :: Count(s + [d], t) == Count(s, t) + if OfType(d, t) then 1 else 0
    ensures forall t :: Ratings(s + [d], t) == Ratings(s, t) + if OfType(d, t) then [RatingOf(d)] else []
  {
    assert (s + [d])[..|s|] == s;
  }

  /** typeCount and typeRatings hold, for each type seen in s, its count and its ratings. */
  ghost predicate TalliesOf(s: seq<MergedData>, typeCount: map<TypeKey, nat>, typeRatings: map<TypeKey, seq<real>>) {
    && typeRatings.Keys == typeCount.Keys
    && (forall t :: Count(s, t) == if t in typeCount then typeCount[t] else 0)
    && (forall t :: t in typeCount ==> typeCount[t] > 0 && typeRatings[t] == Ratings(s, t))
  }

  /** Adding a record updates the tallies as analyzeData does: incomplete records leave them alone. */
  lemma TalliesStep(s: seq<MergedData>, d: MergedData, typeCount: map<TypeKey, nat>, typeRatings: map<TypeKey, seq<real>>)
    requires TalliesOf(s, typeCount, typeRatings)
    ensures !d.IsComplete() ==> TalliesOf(s + [d], typeCount, typeRatings)
    ensures d.IsComplete() ==> var t := TypeOf(d);
      TalliesOf(s + [d],
                typeCount[t := (if t in typeCount then typeCount[t] else 0) + 1],
                typeRatings[t := (if t in typeRatings then typeRatings[t] else []) + [RatingOf(d)]])
  {
    TallySnoc(s, d);
    if d.IsComplete() {
      var t := TypeOf(d);
      var count := typeCount[t := (if t in typeCount then typeCount[t] else 0) + 1];
      var ratings := typeRatings[t := (if t in typeRatings then typeRatings[t] else []) + [RatingOf(d)]];
      forall u
        ensures Count(s + [d], u) == if u in count then count[u] else 0
        ensures u in count ==> count[u] > 0 && ratings[u] == Ratings(s + [d], u)
      {
        if u != t {
          assert !OfType(d, u);
        }
      }
    }
  }

  /** A record that does not beat the current maximum leaves it in place. */
  lemma FirstMaximumKept(s: seq<MergedData>, n: int, k: int)
    requires IsFirstMaximum(s, n, k) && n < |s|
    requires s[n].IsComplete() ==> ReviewsOf(s[n]) <= ReviewsOf(s[k])
    ensures IsFirstMaximum(s, n + 1, k)
  {
  }

  /** A complete record with strictly more reviews than every earlier one takes over. */
  lemma FirstMaximumReplaced(s: seq<MergedData>, n: int)
    requires 0 <= n < |s| && s[n].IsComplete() && ReviewsOf(s[n]) > -1
    requires forall j :: 0 <= j < n && s[j].IsComplete() ==> ReviewsOf(s[j]) < ReviewsOf(s[n])
    ensures IsFirstMaximum(s, n + 1, n)
  {
  }

  /**
   * The running maximum after n records: no record yet and maxReviews still
   * -1 while no complete record has more than -1 reviews; otherwise the
   * first maximum of s[..n] and its review count.
   */
  ghost predicate LeaderOf(s: seq<MergedData>, n: int, leader: Option<MergedData>, maxReviews: int, best: int)
    requires 0 <= n <= |s|
  {
    match leader
    case None => maxReviews == -1 && forall j :: 0 <= j < n && s[j].IsComplete() ==> ReviewsOf(s[j]) <= -1
    case Some(d) => IsFirstMaximum(s, n, best) && d == s[best] && maxReviews == ReviewsOf(d)
  }

  /** One step of the strict '>' scan keeps LeaderOf. */
  lemma LeaderStep(s: seq<MergedData>, n: int, leader: Option<MergedData>, maxReviews: int, best: int)
    requires 0 <= n < |s| && LeaderOf(s, n, leader, maxReviews, best)
    ensures s[n].IsComplete() && ReviewsOf(s[n]) > maxReviews ==> LeaderOf(s, n + 1, Some(s[n]), ReviewsOf(s[n]), n)
    ensures !(s[n].IsComplete() && ReviewsOf(s[n]) > maxReviews) ==> LeaderOf(s, n + 1, leader, maxReviews, best)
  {
    if s[n].IsComplete() && ReviewsOf(s[n]) > maxReviews {
      FirstMaximumReplaced(s, n);
    } else if leader.Some? {
      FirstMaximumKept(s, n, best);
    }
  }

  /**
   * What analyzeData promises: the incomplete records in encounter order;
   * for each type that some complete record has, the number of such records
   * and the mean of their ratings; and the first complete record with the
   * most reviews, None when no complete record has more than -1.
   */
  ghost predicate IsReportOf(merged: seq<MergedData>, report: Report) {
    && report.incomplete == Incomplete(merged)
    && (forall t :: t in report.typeCount <==> Count(merged, t) > 0)
    && (forall t :: t in report.typeCount ==> report.typeCount[t] == Count(merged, t))
    && report.avgRatings.Keys == report.typeCount.Keys
    && (forall t :: t in report.avgRatings ==>
          report.avgRatings[t] == Sum(Ratings(merged, t)) / Count(merged, t) as real)
    && (report.mostReviewed.None? <==>
          forall j :: 0 <= j < |merged| && merged[j].IsComplete() ==> ReviewsOf(merged[j]) <= -1)
    && (report.mostReviewed.Some? ==>
          exists k :: IsFirstMaximum(merged, |merged|, k) && report.mostReviewed.value == merged[k])
  }

  /** analyzeData, without the printing. */
  method AnalyzeData(merged: seq<MergedData>) returns (report: Report)
    ensures IsReportOf(merged, report)
  {
    var typeCount, typeRatings, mostReviewed, incomplete := Scan(merged);
    assert TalliesOf(merged, typeCount, typeRatings);
    forall t | t in typeRatings
      ensures typeRatings[t] != [] && |typeRatings[t]| == Count(merged, t)
    {
    }
    var avgRatings := Averages(typeRatings);
    report := Report(typeCount, avgRatings, mostReviewed, incomplete);
  }

  /** The loop of analyzeData over the merged records. */
  method Scan(merged: seq<MergedData>)
    returns (typeCount: map<TypeKey, nat>, typeRatings: map<TypeKey, seq<real>>,
             mostReviewed: Option<MergedData>, incomplete: seq<MergedData>)
    ensures incomplete == Incomplete(merged)
    ensures TalliesOf(merged, typeCount, typeRatings)
    ensures mostReviewed.None? <==>
              forall j :: 0 <= j < |merged| && merged[j].IsComplete() ==> ReviewsOf(merged[j]) <= -1
    ensures mostReviewed.Some? ==>
              exists k :: IsFirstMaximum(merged, |merged|, k) && mostReviewed.value == merged[k]
  {
    typeCount, typeRatings, mostReviewed, incomplete := map[], map[], None, [];
    var maxReviews := -1;
    ghost var best := 0;
    for i := 0 to |merged|
      invariant incomplete == Incomplete(merged[..i])
      invariant TalliesOf(merged[..i], typeCount, typeRatings)
      invariant LeaderOf(merged, i, mostReviewed, maxReviews, best)
    {
      var data := merged[i];
      assert merged[..i + 1] == merged[..i] + [data];
      assert Incomplete(merged[..i + 1]) == incomplete + if data.IsComplete() then [] else [data];
      TalliesStep(merged[..i], data, typeCount, typeRatings);
      LeaderStep(merged, i, mostReviewed, maxReviews, best);
      if !data.IsComplete() {
        incomplete := incomplete + [data];
        continue;
      }
      var t := data.metadata.value.category;
      typeCount := typeCount[t := (if t in typeCount then typeCount[t] else 0) + 1];
      if t !in typeRatings {
        typeRatings := typeRatings[t := []];
      }
      typeRatings := typeRatings[t := typeRatings[t] + [data.metadata.value.rating]];
      if data.metadata.value.reviews as int > maxReviews {
        maxReviews := data.metadata.value.reviews as int;
        mostReviewed := Some(data);
        best := i;
      }
    }
    assert merged[..|merged|] == merged;
    if mostReviewed.Some? {
      assert IsFirstMaximum(merged, |merged|, best);
    } else {
      assert maxReviews == -1;
    }
  }

  /** The averaging loop: each type's rating list summed and divided by its length. */
  method Averages(typeRatings: map<TypeKey, seq<real>>) returns (avgRatings: map<TypeKey, real>)
    requires forall t :: t in typeRatings ==> typeRatings[t] != []
    ensures avgRatings.Keys == typeRatings.Keys
    ensures forall t :: t in avgRatings ==> avgRatings[t] == Sum(typeRatings[t]) / |typeRatings[t]| as real
  {
    avgRatings := map[];
    var pending := typeRatings.Keys;
    while pending != {}
      invariant pending <= typeRatings.Keys
      invariant avgRatings.Keys == typeRatings.Keys - pending
      invariant forall t :: t in avgRatings ==> avgRatings[t] == Sum(typeRatings[t]) / |typeRatings[t]| as real
      decreases pending
    {
      var t :| t in pending;
      var sum := SumOf(typeRatings[t]);
      avgRatings := avgRatings[t := sum / |typeRatings[t]| as real];
      pending := pending - {t};
    }
  }

  /** The summing loop over one type's ratings. */
  method SumOf(ratings: seq<real>) returns (sum: real)
    ensures sum == Sum(ratings)
  {
    sum := 0.0;
    for j := 0 to |ratings|
      invariant sum == Sum(ratings[..j])
    {
      assert ratings[..j + 1][..j] == ratings[..j];
      sum := sum + ratings[j];
    }
    assert ratings[..|ratings|] == ratings;
  }

  /** A type has a positive count exactly when some complete record of s has that type. */
  lemma {:induction false} CountPositive(s: seq<MergedData>, t: TypeKey)
    ensures Count(s, t) > 0 <==> exists j :: 0 <= j < |s| && OfType(s[j], t)
  {
    if s != [] {
      var init := s[..|s| - 1];
      CountPositive(init, t);
      if Count(init, t) > 0 {
        var j :| 0 <= j < |init| && OfType(init[j], t);
        assert s[j] == init[j];
      }
      if exists j :: 0 <= j < |s| && OfType(s[j], t) {
        var j :| 0 <= j < |s| && OfType(s[j], t);
        if j < |init| {
          assert init[j] == s[j];
        }
      }
    }
  }

  lemma {:induction false} SumAppend(xs: seq<real>, ys: seq<real>)
    ensures Sum(xs + ys) == Sum(xs) + Sum(ys)
  {
    if ys != [] {
      assert (xs + ys)[..|xs + ys| - 1] == xs + ys[..|ys| - 1];
      SumAppend(xs, ys[..|ys| - 1]);
    } else {
      assert xs + ys == xs;
    }
  }

  /** Count and Ratings of a concatenation are those of its parts. */
  lemma {:induction false} TallyAppend(a: seq<MergedData>, b: seq<MergedData>, t: TypeKey)
    ensures Count(a + b, t) == Count(a, t) + Count(b, t)
    ensures Ratings(a + b, t) == Ratings(a, t) + Ratings(b, t)
  {
    if b != [] {
      var b' := b[..|b| - 1];
      assert (a + b)[..|a + b| - 1] == a + b';
      TallyAppend(a, b', t);
    } else {
      assert a + b == a;
    }
  }

  /** Taking s[i] out of s takes its contribution out of the count and the rating sum. */
  lemma TallyRemove(s: seq<MergedData>, i: int, t: TypeKey)
    requires 0 <= i < |s|
    ensures Count(s, t) == Count(s[..i] + s[i + 1..], t) + Count([s[i]], t)
    ensures Sum(Ratings(s, t)) == Sum(Ratings(s[..i] + s[i + 1..], t)) + Sum(Ratings([s[i]], t))
  {
    var before, after := s[..i], s[i + 1..];
    assert s == before + [s[i]] + after;
    TallyAppend(before + [s[i]], after, t);
    TallyAppend(before, [s[i]], t);
    TallyAppend(before, after, t);
    SumAppend(Ratings(before, t) + Ratings([s[i]], t), Ratings(after, t));
    SumAppend(Ratings(before, t), Ratings([s[i]], t));
    SumAppend(Ratings(before, t), Ratings(after, t));
  }

  /** Taking s[i] out of s takes one copy of it out of the multiset. */
  lemma RemoveOne(s: seq<MergedData>, i: int)
    requires 0 <= i < |s|
    ensures multiset(s[..i] + s[i + 1..]) == multiset(s) - multiset{s[i]}
  {
    assert s == s[..i] + [s[i]] + s[i + 1..];
  }

  /**
   * The per-type count and rating sum do not depend on the order of the
   * merged records, which a HashSet decides.
   */
  lemma {:induction false} TalliesIgnoreOrder(s1: seq<MergedData>, s2: seq<MergedData>, t: TypeKey)
    requires multiset(s1) == multiset(s2)
    ensures Count(s1, t) == Count(s2, t)
    ensures Sum(Ratings(s1, t)) == Sum(Ratings(s2, t))
  {
    if s1 != [] {
      var d := s1[|s1| - 1];
      var init1 := s1[..|s1| - 1];
      assert s1 == init1 + [d];
      assert d in multiset(s2);
      var i :| 0 <= i < |s2| && s2[i] == d;
      var rest := s2[..i] + s2[i + 1..];
      assert s1[..|s1| - 1] + s1[|s1|..] == init1;
      RemoveOne(s1, |s1| - 1);
      RemoveOne(s2, i);
      TalliesIgnoreOrder(init1, rest, t);
      TallyRemove(s2, i, t);
      TallyRemove(s1, |s1| - 1, t);
    } else {
      assert |s2| == |multiset(s2)| == 0;
    }
  }

  /** At most one index is the first maximum, so mostReviewed is determined by the order. */
  lemma FirstMaximumUnique(s: seq<MergedData>, n: int, k1: int, k2: int)
    requires IsFirstMaximum(s, n, k1) && IsFirstMaximum(s, n, k2)
    ensures k1 == k2
  {
  }

  /**
   * Reordering the records can change which record is most reviewed when
   * several tie, but not its number of reviews.
   */
  lemma MostReviewsIgnoreOrder(s1: seq<MergedData>, s2: seq<MergedData>, k1: int, k2: int)
    requires multiset(s1) == multiset(s2)
    requires IsFirstMaximum(s1, |s1|, k1) && IsFirstMaximum(s2, |s2|, k2)
    ensures ReviewsOf(s1[k1]) == ReviewsOf(s2[k2])
  {
    assert s1[k1] in multiset(s2) && s2[k2] in multiset(s1);
    var i2 :| 0 <= i2 < |s2| && s2[i2] == s1[k1];
    var i1 :| 0 <= i1 < |s1| && s1[i1] == s2[k2];
  }
}
