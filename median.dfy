/**
 * addMedianProperty: the median of the run scores and the flag on the first
 * run, in run order, whose score equals it.
 */
module Median {
  import opened Wrappers
  import opened Metrics

  ghost predicate Sorted(s: seq<real>) {
    forall i, j :: 0 <= i < j < |s| ==> s[i] <= s[j]
  }

  /** x inserted into an ascending sequence at its place. */
  function Insert(x: real, s: seq<real>): (r: seq<real>)
    requires Sorted(s)
    ensures Sorted(r)
    ensures multiset(r) == multiset(s) + multiset{x}
  {
    if s == [] || x <= s[0] then
      SortedCons(x, s);
      [x] + s
    else
      var rest := Insert(x, s[1..]);
      InsertedAbove(x, s, rest);
      SortedCons(s[0], rest);
      assert s == [s[0]] + s[1..];
      [s[0]] + rest
  }

  /** A value no larger than the head of an ascending sequence can go in front of it. */
  lemma SortedCons(a: real, t: seq<real>)
    requires Sorted(t)
    requires t != [] ==> a <= t[0]
    ensures Sorted([a] + t)
  {
  }

  /** Inserting x above the head of s into the rest of s gives values no smaller than that head. */
  lemma InsertedAbove(x: real, s: seq<real>, rest: seq<real>)
    requires Sorted(s) && s != [] && s[0] < x
    requires multiset(rest) == multiset(s[1..]) + multiset{x}
    ensures rest != [] ==> s[0] <= rest[0]
  {
    if rest != [] {
      assert rest[0] in multiset(rest);
      if rest[0] != x {
        assert rest[0] in multiset(s[1..]);
      }
    }
  }

  /** `sort((a, b) => a - b)` on numbers: the ascending permutation. */
  function SortAscending(s: seq<real>): (r: seq<real>)
    ensures Sorted(r)
    ensures multiset(r) == multiset(s)
    ensures |r| == |s|
  {
    if s == [] then []
    else
      assert s == [s[0]] + s[1..];
      Insert(s[0], SortAscending(s[1..]))
  }

  /** There is one ascending arrangement of a multiset of scores. */
  lemma {:induction false} SortedUnique(a: seq<real>, b: seq<real>)
    requires Sorted(a) && Sorted(b)
    requires multiset(a) == multiset(b)
    ensures a == b
  {
    if a != [] {
      SameHead(a, b);
      SortedUnique(a[1..], b[1..]);
      assert a == [a[0]] + a[1..];
      assert b == [b[0]] + b[1..];
    } else {
      assert |b| == 0 by { assert |multiset(b)| == 0; }
    }
  }

  /** Two ascending arrangements of the same values start alike, and what follows is again two such arrangements. */
  lemma SameHead(a: seq<real>, b: seq<real>)
    requires Sorted(a) && Sorted(b)
    requires multiset(a) == multiset(b) && a != []
    ensures b != [] && a[0] == b[0]
    ensures Sorted(a[1..]) && Sorted(b[1..])
    ensures multiset(a[1..]) == multiset(b[1..])
  {
    assert |b| == |a| by { assert |multiset(a)| == |multiset(b)|; }
    var x, y := a[0], b[0];
    assert x in a && y in b;
    HeadIsLeast(b, x);
    HeadIsLeast(a, y);
    DropHead(a);
    DropHead(b);
  }

  /** The head of an ascending sequence is no larger than any of its values. */
  lemma HeadIsLeast(s: seq<real>, x: real)
    requires Sorted(s) && x in multiset(s)
    ensures s[0] <= x
  {
    var i :| 0 <= i < |s| && s[i] == x;
  }

  /** Dropping the head of an ascending sequence leaves an ascending sequence of the other values. */
  lemma DropHead(s: seq<real>)
    requires Sorted(s) && s != []
    ensures Sorted(s[1..])
    ensures multiset(s[1..]) == multiset(s) - multiset{s[0]}
  {
    assert s == [s[0]] + s[1..];
  }

  /** The scores of the records, in run order. */
  function Scores(results: seq<Metrics>): (s: seq<real>)
    ensures |s| == |results|
    ensures forall k :: 0 <= k < |results| ==> s[k] == results[k].score
  {
    seq(|results|, k requires 0 <= k < |results| => results[k].score)
  }

  /**
   * The median score: the middle of the sorted scores for an odd count, the mean
   * of the two middle ones for an even count. For no scores the source computes
   * NaN, which equals nothing; that is None here.
   */
  function MedianScore(scores: seq<real>): (m: Option<real>)
    ensures m.None? <==> scores == []
  {
    Middle(SortAscending(scores))
  }

  /** The middle element of an odd-length sequence, the mean of the two middle ones of an even-length one. */
  function Middle(sorted: seq<real>): (m: Option<real>)
    ensures m.None? <==> sorted == []
  {
    var n := |sorted|;
    if n % 2 == 1 then Some(sorted[n / 2])
    else if n == 0 then None
    else Some((sorted[n / 2 - 1] + sorted[n / 2]) / 2.0)
  }

  /** `findIndex(r => r.score === v)`: the first record in run order whose score is v. */
  function FirstWithScore(results: seq<Metrics>, v: real): (k: Option<nat>)
    ensures k.Some? ==> k.value < |results| && results[k.value].score == v
    ensures k.Some? ==> forall j :: 0 <= j < k.value ==> results[j].score != v
    ensures k.None? ==> forall j :: 0 <= j < |results| ==> results[j].score != v
  {
    if results == [] then None
    else if results[0].score == v then Some(0)
    else
      match FirstWithScore(results[1..], v)
      case None => None
      case Some(k) => Some(k + 1)
  }

  /** The index to flag: the first run whose score equals the median, if any does. */
  function MedianIndex(results: seq<Metrics>): (k: Option<nat>)
    ensures k.Some? ==> && k.value < |results|
                        && MedianScore(Scores(results)) == Some(results[k.value].score)
                        && forall j :: 0 <= j < k.value ==> results[j].score != results[k.value].score
    ensures k.None? <==> forall j :: 0 <= j < |results| ==> MedianScore(Scores(results)) != Some(results[j].score)
  {
    match MedianScore(Scores(results))
    case None => None
    case Some(m) => FirstWithScore(results, m)
  }

  /**
   * addMedianProperty: the same records in the same order, each with isMedian
   * set exactly at the first run whose score equals the median score.
   */
  function AddMedianProperty(results: seq<Metrics>): (r: seq<Annotated>)
    ensures |r| == |results|
    ensures forall k :: 0 <= k < |r| ==> r[k].rec == results[k]
    ensures forall i, j :: 0 <= i < |r| && 0 <= j < |r| && r[i].isMedian && r[j].isMedian ==> i == j
    ensures forall k :: 0 <= k < |r| && r[k].isMedian ==>
              && MedianScore(Scores(results)) == Some(results[k].score)
              && forall j :: 0 <= j < k ==> results[j].score != results[k].score
    ensures (exists k :: 0 <= k < |r| && r[k].isMedian) <==>
              (exists k :: 0 <= k < |results| && MedianScore(Scores(results)) == Some(results[k].score))
  {
    var idx := MedianIndex(results);
    var r := seq(|results|, k requires 0 <= k < |results| => Annotated(results[k], idx == Some(k)));
    assert idx.Some? ==> r[idx.value].isMedian;
    r
  }

  /** The number of records flagged. */
  function FlaggedCount(r: seq<Annotated>): nat {
    if r == [] then 0 else (if r[0].isMedian then 1 else 0) + FlaggedCount(r[1..])
  }

  lemma {:induction false} FlaggedCountOne(r: seq<Annotated>, k: nat)
    requires k < |r| && r[k].isMedian
    requires forall j :: 0 <= j < |r| && j != k ==> !r[j].isMedian
    ensures FlaggedCount(r) == 1
  {
    if k == 0 {
      FlaggedCountZero(r[1..]);
    } else {
      FlaggedCountOne(r[1..], k - 1);
    }
  }

  lemma {:induction false} FlaggedCountZero(r: seq<Annotated>)
    requires forall j :: 0 <= j < |r| ==> !r[j].isMedian
    ensures FlaggedCount(r) == 0
  {
    if r != [] {
      FlaggedCountZero(r[1..]);
    }
  }

  /** For an odd number of runs exactly one record is flagged, and its score is the middle sorted score. */
  lemma OddCountFlagsExactlyOne(results: seq<Metrics>)
    requires |results| % 2 == 1
    ensures var r := AddMedianProperty(results);
            && FlaggedCount(r) == 1
            && exists k :: 0 <= k < |r| && r[k].isMedian
                 && results[k].score == SortAscending(Scores(results))[|results| / 2]
  {
    var scores := Scores(results);
    var sorted := SortAscending(scores);
    var m := sorted[|results| / 2];
    assert MedianScore(scores) == Some(m);
    assert m in multiset(scores);
    var i :| 0 <= i < |scores| && scores[i] == m;
    var r := AddMedianProperty(results);
    assert MedianScore(Scores(results)) == Some(results[i].score);
    var k :| 0 <= k < |r| && r[k].isMedian;
    FlaggedCountOne(r, k);
  }

  /** For an odd number of runs some record is flagged. */
  lemma OddCountFlagsOne(results: seq<Metrics>)
    requires |results| % 2 == 1
    ensures exists k :: 0 <= k < |results| && AddMedianProperty(results)[k].isMedian
  {
    OddCountFlagsExactlyOne(results);
  }

  /** For an even, non-zero number of runs the median score is the mean of the two middle sorted scores. */
  lemma EvenCountMedianIsMean(scores: seq<real>, sorted: seq<real>)
    requires |scores| % 2 == 0 && |scores| > 0
    requires sorted == SortAscending(scores)
    ensures MedianScore(scores) == Some((sorted[|sorted| / 2 - 1] + sorted[|sorted| / 2]) / 2.0)
  {
    MiddleOfEven(sorted);
  }

  lemma MiddleOfEven(sorted: seq<real>)
    requires |sorted| % 2 == 0 && |sorted| > 0
    ensures Middle(sorted) == Some((sorted[|sorted| / 2 - 1] + sorted[|sorted| / 2]) / 2.0)
  {
  }

  /** When no run scored exactly the median score, no record is flagged (and for no runs, none is either). */
  lemma NoMatchFlagsNone(results: seq<Metrics>)
    requires forall k :: 0 <= k < |results| ==> MedianScore(Scores(results)) != Some(results[k].score)
    ensures FlaggedCount(AddMedianProperty(results)) == 0
  {
    FlaggedCountZero(AddMedianProperty(results));
  }

  /** The median score depends only on the scores, not on the order the runs produced them. */
  lemma MedianIgnoresOrder(a: seq<real>, b: seq<real>)
    requires multiset(a) == multiset(b)
    ensures MedianScore(a) == MedianScore(b)
  {
    SortedUnique(SortAscending(a), SortAscending(b));
  }

  /** Number of scores strictly below m, and strictly above m. */
  function CountBelow(s: seq<real>, m: real): nat {
    if s == [] then 0 else (if s[0] < m then 1 else 0) + CountBelow(s[1..], m)
  }

  function CountAbove(s: seq<real>, m: real): nat {
    if s == [] then 0 else (if s[0] > m then 1 else 0) + CountAbove(s[1..], m)
  }

  lemma {:induction false} CountsOfInsert(x: real, s: seq<real>, m: real)
    requires Sorted(s)
    ensures CountBelow(Insert(x, s), m) == CountBelow(s, m) + (if x < m then 1 else 0)
    ensures CountAbove(Insert(x, s), m) == CountAbove(s, m) + (if x > m then 1 else 0)
  {
    var r := Insert(x, s);
    if s == [] || x <= s[0] {
      assert r == [x] + s;
      assert r[0] == x && r[1..] == s;
    } else {
      var rest := Insert(x, s[1..]);
      assert r == [s[0]] + rest;
      assert r[0] == s[0] && r[1..] == rest;
      CountsOfInsert(x, s[1..], m);
    }
  }

  lemma {:induction false} CountsOfSort(s: seq<real>, m: real)
    ensures CountBelow(SortAscending(s), m) == CountBelow(s, m)
    ensures CountAbove(SortAscending(s), m) == CountAbove(s, m)
  {
    if s != [] {
      CountsOfSort(s[1..], m);
      CountsOfInsert(s[0], SortAscending(s[1..]), m);
    }
  }

  /** In an ascending sequence, nothing from index k on is below s[k], and nothing up to k is above it. */
  lemma {:induction false} SortedCounts(s: seq<real>, k: nat, m: real)
    requires Sorted(s) && k < |s| && s[k] == m
    ensures CountBelow(s, m) <= k
    ensures CountAbove(s, m) <= |s| - 1 - k
  {
    if k > 0 {
      SortedCounts(s[1..], k - 1, m);
    } else {
      NoneBelow(s, m);
      assert s[0] == m;
      assert CountAbove(s, m) == CountAbove(s[1..], m);
      assert CountAbove(s[1..], m) <= |s[1..]| by { CountAboveBound(s[1..], m); }
    }
  }

  lemma {:induction false} NoneBelow(s: seq<real>, m: real)
    requires forall i :: 0 <= i < |s| ==> s[i] >= m
    ensures CountBelow(s, m) == 0
  {
    if s != [] {
      NoneBelow(s[1..], m);
    }
  }

  lemma {:induction false} CountAboveBound(s: seq<real>, m: real)
    ensures CountAbove(s, m) <= |s|
  {
    if s != [] {
      CountAboveBound(s[1..], m);
    }
  }

  /**
   * The flagged score of an odd-length session is a median in the usual sense:
   * at most half the runs (rounded down) scored lower and at most half scored higher.
   */
  lemma {:induction false} FlaggedScoreSplitsRuns(results: seq<Metrics>, k: nat)
    requires |results| % 2 == 1
    requires k < |results| && AddMedianProperty(results)[k].isMedian
    ensures CountBelow(Scores(results), results[k].score) <= |results| / 2
    ensures CountAbove(Scores(results), results[k].score) <= |results| / 2
  {
    var scores := Scores(results);
    var sorted := SortAscending(scores);
    var m := results[k].score;
    assert MedianScore(scores) == Some(m);
    assert sorted[|results| / 2] == m;
    SortedCounts(sorted, |results| / 2, m);
    CountsOfSort(scores, m);
  }

  lemma MedianFiveExample(s: seq<real>)
    requires |s| == 5 && s[0] == 80.0 && s[1] == 85.0 && s[2] == 90.0 && s[3] == 85.0 && s[4] == 95.0
    ensures MedianScore(s) == Some(85.0)
  {
    var e := s[..2] + [s[3], s[2]] + s[4..];
    assert s == s[..2] + [s[2], s[3]] + s[4..];
    assert multiset([s[3], s[2]]) == multiset([s[2], s[3]]);
    assert multiset(e) == multiset(s);
    SortedUnique(SortAscending(s), e);
  }

  lemma MedianFourExample(s: seq<real>)
    requires |s| == 4 && s[0] == 70.0 && s[1] == 80.0 && s[2] == 90.0 && s[3] == 100.0
    ensures MedianScore(s) == Some(85.0)
  {
    SortedUnique(SortAscending(s), s);
  }

  /** The flag lands on run i, and on no other, when i is the first run that scored the median m. */
  lemma FlaggedRunIs(results: seq<Metrics>, m: real, i: nat)
    requires MedianScore(Scores(results)) == Some(m)
    requires FirstWithScore(results, m) == Some(i)
    ensures forall k :: 0 <= k < |results| ==> (AddMedianProperty(results)[k].isMedian <==> k == i)
  {
  }

  /** Run k is flagged exactly when it scored the median and no earlier run scored the same. */
  lemma FlaggedIff(results: seq<Metrics>, k: nat)
    requires k < |results|
    ensures AddMedianProperty(results)[k].isMedian <==>
              && MedianScore(Scores(results)) == Some(results[k].score)
              && forall j :: 0 <= j < k ==> results[j].score != results[k].score
  {
    var m := results[k].score;
    if MedianScore(Scores(results)) == Some(m) && forall j :: 0 <= j < k ==> results[j].score != m {
      var first := FirstWithScore(results, m);
      assert first.Some?;
      assert first.value == k;
      FlaggedRunIs(results, m, k);
    }
  }

  lemma FirstMatchFiveExample(results: seq<Metrics>)
    requires |results| == 5
    requires results[0].score == 80.0 && results[1].score == 85.0
    ensures FirstWithScore(results, 85.0) == Some(1)
  {
  }

  /** Five runs scoring 80, 85, 90, 85, 95: the median is 85 and the second run alone is flagged. */
  lemma FiveRunExample(results: seq<Metrics>)
    requires |results| == 5
    requires results[0].score == 80.0 && results[1].score == 85.0 && results[2].score == 90.0
    requires results[3].score == 85.0 && results[4].score == 95.0
    ensures MedianScore(Scores(results)) == Some(85.0)
    ensures forall k :: 0 <= k < |results| ==> (AddMedianProperty(results)[k].isMedian <==> k == 1)
  {
    MedianFiveExample(Scores(results));
    FirstMatchFiveExample(results);
    FlaggedRunIs(results, 85.0, 1);
  }

  /** Four runs scoring 70, 80, 90, 100: the median is 85, which no run scored, so nothing is flagged. */
  lemma FourRunExample(results: seq<Metrics>)
    requires |results| == 4
    requires results[0].score == 70.0 && results[1].score == 80.0
    requires results[2].score == 90.0 && results[3].score == 100.0
    ensures MedianScore(Scores(results)) == Some(85.0)
    ensures FlaggedCount(AddMedianProperty(results)) == 0
  {
    MedianFourExample(Scores(results));
    NoMatchFlagsNone(results);
  }
}
