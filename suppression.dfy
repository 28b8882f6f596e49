/** Greedy non-maximum suppression over a mutable list of candidates
    (FaceRecognition.NonMaximumSuppression). The two ordering calls of the
    original compute a sorted view and discard it, so the list is processed
    in the order it is given and the survivors come out in that order. */
module Suppression {
  import opened Geometry
  import opened Subsequences

  /** The candidates of rest that the survivor does not suppress, in order:
      what the backward removal loop leaves in the working list. */
  function Remaining(survivor: Candidate, rest: seq<Candidate>, overlaps: (Candidate, Candidate) -> bool): (r: seq<Candidate>)
    ensures |r| <= |rest|
    ensures forall c :: c in r <==> c in rest && !overlaps(survivor, c)
  {
    if rest == [] then []
    else
      var tail := Remaining(survivor, rest[1..], overlaps);
      if overlaps(survivor, rest[0]) then tail else [rest[0]] + tail
  }

  /** Every occurrence of a candidate the survivor does not overlap stays
      in the working list, duplicates included; every occurrence of one it
      overlaps is removed. */
  lemma {:induction false} RemainingKeepsEveryOccurrence(survivor: Candidate, rest: seq<Candidate>, overlaps: (Candidate, Candidate) -> bool)
    ensures forall c :: multiset(Remaining(survivor, rest, overlaps))[c]
                        == if overlaps(survivor, c) then 0 else multiset(rest)[c]
    decreases |rest|
  {
    if rest != [] {
      RemainingKeepsEveryOccurrence(survivor, rest[1..], overlaps);
      assert rest == [rest[0]] + rest[1..];
    }
  }

  /** The survivors of greedy suppression: the head survives, drops every
      later candidate it overlaps, and the rest is processed the same way. */
  function Suppress(s: seq<Candidate>, overlaps: (Candidate, Candidate) -> bool): (r: seq<Candidate>)
    ensures |r| <= |s|
    ensures forall c :: c in r ==> c in s
    decreases |s|
  {
    if s == [] then []
    else [s[0]] + Suppress(Remaining(s[0], s[1..], overlaps), overlaps)
  }

  lemma {:induction false} RemainingIsSubsequence(survivor: Candidate, rest: seq<Candidate>, overlaps: (Candidate, Candidate) -> bool)
    ensures IsSubsequence(Remaining(survivor, rest, overlaps), rest)
    decreases |rest|
  {
    if rest != [] {
      var tail := Remaining(survivor, rest[1..], overlaps);
      RemainingIsSubsequence(survivor, rest[1..], overlaps);
      if !overlaps(survivor, rest[0]) {
        SubsequenceCons(rest[0], tail, rest[1..]);
        assert [rest[0]] + rest[1..] == rest;
      }
    }
  }

  /** One step of the backward removal loop: position i is either dropped
      or kept in front of what remains after it. */
  lemma RemainingStep(survivor: Candidate, rest: seq<Candidate>, i: int, overlaps: (Candidate, Candidate) -> bool)
    requires 0 <= i < |rest|
    ensures var list := rest[..i + 1] + Remaining(survivor, rest[i + 1..], overlaps);
      && list[i] == rest[i]
      && (overlaps(survivor, rest[i]) ==>
            list[..i] + list[i + 1..] == rest[..i] + Remaining(survivor, rest[i..], overlaps))
      && (!overlaps(survivor, rest[i]) ==>
            list == rest[..i] + Remaining(survivor, rest[i..], overlaps))
  {
    var list := rest[..i + 1] + Remaining(survivor, rest[i + 1..], overlaps);
    assert rest[i..][0] == rest[i] && rest[i..][1..] == rest[i + 1..];
    assert list[..i] == rest[..i];
    assert list[i + 1..] == Remaining(survivor, rest[i + 1..], overlaps);
    assert rest[..i + 1] == rest[..i] + [rest[i]];
  }

  /** Suppression only deletes: the survivors are an order-preserving
      selection of the input, an empty input gives an empty output and a
      non-empty input always keeps its first candidate. */
  lemma {:induction false} SuppressIsSubsequence(s: seq<Candidate>, overlaps: (Candidate, Candidate) -> bool)
    ensures IsSubsequence(Suppress(s, overlaps), s)
    ensures Suppress(s, overlaps) == [] <==> s == []
    ensures s != [] ==> Suppress(s, overlaps)[0] == s[0]
    decreases |s|
  {
    if s != [] {
      var rem := Remaining(s[0], s[1..], overlaps);
      SuppressIsSubsequence(rem, overlaps);
      RemainingIsSubsequence(s[0], s[1..], overlaps);
      SubsequenceTransitive(Suppress(rem, overlaps), rem, s[1..]);
      SubsequenceCons(s[0], Suppress(rem, overlaps), s[1..]);
      assert [s[0]] + s[1..] == s;
    }
  }

  /** No candidate overlaps a later one. */
  predicate PairwiseSeparated(s: seq<Candidate>, overlaps: (Candidate, Candidate) -> bool)
  {
    forall i, j :: 0 <= i < j < |s| ==> !overlaps(s[i], s[j])
  }

  /** No survivor overlaps a later survivor. */
  lemma {:induction false} SuppressSeparates(s: seq<Candidate>, overlaps: (Candidate, Candidate) -> bool)
    ensures PairwiseSeparated(Suppress(s, overlaps), overlaps)
    decreases |s|
  {
    if s != [] {
      var rem := Remaining(s[0], s[1..], overlaps);
      var tail := Suppress(rem, overlaps);
      SuppressSeparates(rem, overlaps);
      assert PairwiseSeparated(tail, overlaps);
      var r := Suppress(s, overlaps);
      assert r == [s[0]] + tail;
      forall i, j | 0 <= i < j < |r|
        ensures !overlaps(r[i], r[j])
      {
        if i == 0 {
          assert r[i] == s[0] && r[j] == tail[j - 1];
          assert tail[j - 1] in tail;
          assert tail[j - 1] in rem;
          assert !overlaps(s[0], tail[j - 1]);
        } else {
          assert r[i] == tail[i - 1] && r[j] == tail[j - 1];
          assert !overlaps(tail[i - 1], tail[j - 1]);
        }
      }
    }
  }

  /** A candidate rest[p] that the survivor keeps appears in Remaining at
      some position m, and everything before it there comes from rest[..p]. */
  lemma {:induction false} RemainingPosition(survivor: Candidate, rest: seq<Candidate>, overlaps: (Candidate, Candidate) -> bool, p: nat)
    returns (m: nat)
    requires p < |rest| && !overlaps(survivor, rest[p])
    ensures m < |Remaining(survivor, rest, overlaps)|
    ensures Remaining(survivor, rest, overlaps)[m] == rest[p]
    ensures forall q :: 0 <= q < m ==> Remaining(survivor, rest, overlaps)[q] in rest[..p]
    decreases |rest|
  {
    var rem := Remaining(survivor, rest, overlaps);
    var tail := Remaining(survivor, rest[1..], overlaps);
    if p == 0 {
      assert rem == [rest[0]] + tail;
      m := 0;
    } else {
      var k := RemainingPosition(survivor, rest[1..], overlaps, p - 1);
      assert rest[1..][..p - 1] == rest[1..p];
      if overlaps(survivor, rest[0]) {
        assert rem == tail;
        m := k;
        forall q | 0 <= q < m ensures rem[q] in rest[..p] {
          assert tail[q] in rest[1..p];
        }
      } else {
        assert rem == [rest[0]] + tail;
        m := k + 1;
        forall q | 0 <= q < m ensures rem[q] in rest[..p] {
          if q == 0 {
            assert rest[..p][0] == rest[0];
          } else {
            assert rem[q] == tail[q - 1];
            assert tail[q - 1] in rest[1..p];
          }
        }
      }
    }
  }

  /** Every input candidate either survives or is overlapped by a survivor
      that comes before it in the input. */
  lemma {:induction false} SuppressCovers(s: seq<Candidate>, overlaps: (Candidate, Candidate) -> bool, k: nat)
    requires k < |s|
    ensures var r := Suppress(s, overlaps);
      s[k] in r || exists j :: 0 <= j < |r| && r[j] in s[..k] && overlaps(r[j], s[k])
    decreases |s|
  {
    var r := Suppress(s, overlaps);
    var rest := s[1..];
    var rem := Remaining(s[0], rest, overlaps);
    var tail := Suppress(rem, overlaps);
    assert r == [s[0]] + tail;
    if k == 0 {
      assert r[0] == s[0];
    } else if overlaps(s[0], s[k]) {
      assert r[0] == s[0] && s[..k][0] == s[0];
    } else {
      assert s[k] == rest[k - 1];
      var m := RemainingPosition(s[0], rest, overlaps, k - 1);
      SuppressCovers(rem, overlaps, m);
      if rem[m] in tail {
        assert s[k] in r;
      } else {
        var j :| 0 <= j < |tail| && tail[j] in rem[..m] && overlaps(tail[j], rem[m]);
        var q :| 0 <= q < m && rem[q] == tail[j];
        assert rem[q] in rest[..k - 1];
        assert rest[..k - 1] == s[1..k];
        assert r[j + 1] == tail[j];
        assert r[j + 1] in s[..k];
      }
    }
  }

  /** A survivor that overlaps every later candidate leaves nothing behind. */
  lemma {:induction false} RemainingAllOverlapped(survivor: Candidate, rest: seq<Candidate>, overlaps: (Candidate, Candidate) -> bool)
    requires forall j :: 0 <= j < |rest| ==> overlaps(survivor, rest[j])
    ensures Remaining(survivor, rest, overlaps) == []
    decreases |rest|
  {
    if rest != [] {
      RemainingAllOverlapped(survivor, rest[1..], overlaps);
    }
  }

  /** When the first candidate overlaps all others, it is the only survivor. */
  lemma FirstOverlapsAllSurvivesAlone(s: seq<Candidate>, overlaps: (Candidate, Candidate) -> bool)
    requires s != []
    requires forall j :: 0 < j < |s| ==> overlaps(s[0], s[j])
    ensures Suppress(s, overlaps) == [s[0]]
  {
    RemainingAllOverlapped(s[0], s[1..], overlaps);
  }

  lemma {:induction false} RemainingNoneOverlapped(survivor: Candidate, rest: seq<Candidate>, overlaps: (Candidate, Candidate) -> bool)
    requires forall j :: 0 <= j < |rest| ==> !overlaps(survivor, rest[j])
    ensures Remaining(survivor, rest, overlaps) == rest
    decreases |rest|
  {
    if rest != [] {
      RemainingNoneOverlapped(survivor, rest[1..], overlaps);
      assert [rest[0]] + rest[1..] == rest;
    }
  }

  /** Suppression leaves a pairwise-separated list unchanged. */
  lemma {:induction false} SuppressKeepsSeparated(s: seq<Candidate>, overlaps: (Candidate, Candidate) -> bool)
    requires PairwiseSeparated(s, overlaps)
    ensures Suppress(s, overlaps) == s
    decreases |s|
  {
    if s != [] {
      RemainingNoneOverlapped(s[0], s[1..], overlaps);
      assert PairwiseSeparated(s[1..], overlaps) by {
        forall i, j | 0 <= i < j < |s[1..]|
          ensures !overlaps(s[1..][i], s[1..][j])
        {
          assert s[1..][i] == s[i + 1] && s[1..][j] == s[j + 1];
        }
      }
      SuppressKeepsSeparated(s[1..], overlaps);
      assert [s[0]] + s[1..] == s;
    }
  }

  /** Suppressing twice is the same as suppressing once. */
  lemma SuppressIdempotent(s: seq<Candidate>, overlaps: (Candidate, Candidate) -> bool)
    ensures Suppress(Suppress(s, overlaps), overlaps) == Suppress(s, overlaps)
  {
    SuppressSeparates(s, overlaps);
    SuppressKeepsSeparated(Suppress(s, overlaps), overlaps);
  }

  /** The test of NonMaximumSuppression: a candidate is dropped when its
      IoU with the current survivor is at least the threshold. */
  function OverlapTest(threshold: real): (Candidate, Candidate) -> bool
  {
    (survivor: Candidate, other: Candidate) => Overlapping(survivor, other, threshold)
  }

  /** Two identical 1x1 candidates both survive at any non-negative
      threshold, since their IoU is -2. */
  lemma IdenticalUnitSquaresBothSurvive(c: Candidate, threshold: real)
    requires c.rectangle.width == 1 && c.rectangle.height == 1
    requires threshold >= 0.0
    ensures Suppress([c, c], OverlapTest(threshold)) == [c, c]
  {
    UnitSquareSelfIntersectionOverUnion(c);
    assert !OverlapTest(threshold)(c, c);
    assert [c, c][1..] == [c];
    assert Remaining(c, [c], OverlapTest(threshold)) == [c];
  }

  /** Two 100x100 boxes one pixel apart have IoU 1 under the pixel-inclusive
      rule; at threshold 0.4 the first one listed suppresses the second. */
  lemma OffsetBoxesOverlap(first: Candidate, second: Candidate)
    requires first.rectangle == Rectangle(0, 0, 100, 100)
    requires second.rectangle == Rectangle(1, 1, 100, 100)
    ensures IntersectionOverUnion(first, second) == Finite(1.0)
    ensures Suppress([first, second], OverlapTest(0.4)) == [first]
  {
    assert IntersectionArea(first.rectangle, second.rectangle) == 10000;
    assert UnionArea(first.rectangle, second.rectangle) == 10000;
    FirstOverlapsAllSurvivesAlone([first, second], OverlapTest(0.4));
  }

  /** The scores are never consulted: listed first, the 0.85 box survives
      and the 0.95 box is the one suppressed. */
  lemma InputOrderDecidesSurvivor()
    ensures var high := Candidate(0.95, Rectangle(0, 0, 100, 100));
      var low := Candidate(0.85, Rectangle(1, 1, 100, 100));
      && Suppress([high, low], OverlapTest(0.4)) == [high]
      && Suppress([low, high], OverlapTest(0.4)) == [low]
  {
    var high := Candidate(0.95, Rectangle(0, 0, 100, 100));
    var low := Candidate(0.85, Rectangle(1, 1, 100, 100));
    OffsetBoxesOverlap(high, low);
    IntersectionOverUnionSymmetric(high, low);
    FirstOverlapsAllSurvivesAlone([low, high], OverlapTest(0.4));
  }

  /** A List<FaceRecognitionResult>: its contents are replaced by Add and
      RemoveAt. */
  class ResultList {
    var items: seq<Candidate>

    constructor (initial: seq<Candidate>)
      ensures items == initial
    {
      items := initial;
    }

    method Add(c: Candidate)
      modifies this
      ensures items == old(items) + [c]
    {
      items := items + [c];
    }

    method RemoveAt(index: nat)
      requires index < |items|
      modifies this
      ensures items == old(items[..index] + items[index + 1..])
    {
      items := items[..index] + items[index + 1..];
    }
  }

  /** The inner loop of NonMaximumSuppression: walks the list backwards and
      removes every candidate that the survivor overlaps. */
  method RemoveOverlapped(results: ResultList, currentResult: Candidate, overlapThreshold: real)
    modifies results
    ensures results.items == Remaining(currentResult, old(results.items), OverlapTest(overlapThreshold))
  {
    ghost var rest := results.items;
    var i := |results.items| - 1;
    while i >= 0
      invariant -1 <= i < |rest|
      invariant results.items == rest[..i + 1] + Remaining(currentResult, rest[i + 1..], OverlapTest(overlapThreshold))
      decreases i
    {
      RemainingStep(currentResult, rest, i, OverlapTest(overlapThreshold));
      var iou := IntersectionOverUnion(currentResult, results.items[i]);
      if AtLeast(iou, overlapThreshold) {
        results.RemoveAt(i);
      }
      i := i - 1;
    }
    assert rest[..0] == [] && rest[0..] == rest;
  }

  /** One round of the outer loop: moving the head to the survivors and
      keeping only what it does not overlap preserves the final result. */
  lemma SuppressStep(done: seq<Candidate>, all: seq<Candidate>, overlaps: (Candidate, Candidate) -> bool)
    requires all != []
    ensures done + Suppress(all, overlaps)
            == (done + [all[0]]) + Suppress(Remaining(all[0], all[1..], overlaps), overlaps)
  {
    var later := Suppress(Remaining(all[0], all[1..], overlaps), overlaps);
    assert done + ([all[0]] + later) == (done + [all[0]]) + later;
  }

  /** Greedy suppression that consumes its argument: on return the caller's
      list is empty and the new list holds the survivors. */
  method NonMaximumSuppression(results: ResultList, overlapThreshold: real) returns (currentResults: ResultList)
    modifies results
    ensures fresh(currentResults)
    ensures currentResults.items == Suppress(old(results.items), OverlapTest(overlapThreshold))
    ensures results.items == []
  {
    ghost var survivors := Suppress(results.items, OverlapTest(overlapThreshold));
    currentResults := new ResultList([]);
    while |results.items| > 0
      invariant fresh(currentResults)
      invariant currentResults.items + Suppress(results.items, OverlapTest(overlapThreshold)) == survivors
      decreases |results.items|
    {
      var currentResult := results.items[0];
      ghost var done, all := currentResults.items, results.items;
      SuppressStep(done, all, OverlapTest(overlapThreshold));
      currentResults.Add(currentResult);
      results.RemoveAt(0);
      assert results.items == all[1..];
      RemoveOverlapped(results, currentResult, overlapThreshold);
      assert currentResults.items == done + [currentResult];
    }
    assert currentResults.items + [] == currentResults.items;
  }
}
