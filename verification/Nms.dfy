/** Non-maximum suppression: keep the most confident detections, drop what overlaps one of them too much. */
module Nms {
  import opened Boxes

  datatype Detection = Detection(bbox: BBox, confidence: real, landmarks: seq<real>)

  // ----- The stable sort by descending confidence -----

  function InsertByConfidence(d: Detection, s: seq<Detection>): seq<Detection> {
    if s == [] || d.confidence >= s[0].confidence then [d] + s
    else [s[0]] + InsertByConfidence(d, s[1..])
  }

  function SortByConfidence(s: seq<Detection>): seq<Detection> {
    if s == [] then [] else InsertByConfidence(s[0], SortByConfidence(s[1..]))
  }

  predicate Descending(s: seq<Detection>) {
    forall i, j :: 0 <= i < j < |s| ==> s[i].confidence >= s[j].confidence
  }

  lemma {:induction false} InsertKeepsOrder(d: Detection, s: seq<Detection>)
    requires Descending(s)
    ensures Descending(InsertByConfidence(d, s))
    ensures InsertByConfidence(d, s)[0].confidence == if s == [] || d.confidence >= s[0].confidence then d.confidence
                                                      else s[0].confidence
  {
    hide Descending;
    if s == [] || d.confidence >= s[0].confidence {
      HeadThenDescending(d, s);
    } else {
      SortedTail(s);
      InsertKeepsOrder(d, s[1..]);
      HeadThenDescending(s[0], InsertByConfidence(d, s[1..]));
    }
  }

  lemma SortedTail(s: seq<Detection>)
    requires Descending(s) && s != []
    ensures Descending(s[1..]) && forall x :: x in s[1..] ==> s[0].confidence >= x.confidence
  {
  }

  lemma HeadThenDescending(d: Detection, s: seq<Detection>)
    requires Descending(s) && (s != [] ==> d.confidence >= s[0].confidence)
    ensures Descending([d] + s)
  {
  }

  lemma {:induction false} InsertKeepsMembers(d: Detection, s: seq<Detection>)
    ensures multiset(InsertByConfidence(d, s)) == multiset(s) + multiset{d}
  {
    if s != [] && d.confidence < s[0].confidence {
      InsertKeepsMembers(d, s[1..]);
      assert s == [s[0]] + s[1..];
    }
  }

  lemma {:induction false} SortIsSorted(s: seq<Detection>)
    ensures Descending(SortByConfidence(s)) && multiset(SortByConfidence(s)) == multiset(s)
  {
    hide InsertByConfidence, Descending;
    if s == [] {
      NothingDescends();
    } else {
      SortIsSorted(s[1..]);
      InsertKeepsOrder(s[0], SortByConfidence(s[1..]));
      InsertKeepsMembers(s[0], SortByConfidence(s[1..]));
      assert s == [s[0]] + s[1..];
    }
  }

  lemma NothingDescends()
    ensures Descending([])
  {
  }

  lemma {:induction false} SortOfSorted(s: seq<Detection>)
    requires Descending(s)
    ensures SortByConfidence(s) == s
  {
    if s != [] {
      SortOfSorted(s[1..]);
    }
  }

  function WithConfidence(s: seq<Detection>, c: real): seq<Detection> {
    if s == [] then []
    else if s[0].confidence == c then [s[0]] + WithConfidence(s[1..], c)
    else WithConfidence(s[1..], c)
  }

  lemma {:induction false} InsertIsStable(d: Detection, s: seq<Detection>, c: real)
    ensures WithConfidence(InsertByConfidence(d, s), c) == WithConfidence([d] + s, c)
  {
    assert ([d] + s)[1..] == s;
    if s != [] && d.confidence < s[0].confidence {
      InsertIsStable(d, s[1..], c);
      assert ([d] + s[1..])[1..] == s[1..];
      assert ([s[0]] + InsertByConfidence(d, s[1..]))[1..] == InsertByConfidence(d, s[1..]);
    }
  }

  /** Equally confident detections keep their input order. */
  lemma {:induction false} SortIsStable(s: seq<Detection>, c: real)
    ensures WithConfidence(SortByConfidence(s), c) == WithConfidence(s, c)
  {
    if s != [] {
      var rest := SortByConfidence(s[1..]);
      SortIsStable(s[1..], c);
      InsertIsStable(s[0], rest, c);
      assert ([s[0]] + rest)[1..] == rest;
    }
  }

  // ----- Suppression -----

  /** The detections that do not overlap d above the threshold. */
  function ClearOf(d: Detection, s: seq<Detection>, threshold: real): (r: seq<Detection>)
    ensures |r| <= |s|
  {
    if s == [] then []
    else if Iou(d.bbox, s[0].bbox) > threshold then ClearOf(d, s[1..], threshold)
    else [s[0]] + ClearOf(d, s[1..], threshold)
  }

  /** The greedy rule: keep the first, then the rule applied to what is clear of it. */
  function Keep(s: seq<Detection>, threshold: real): seq<Detection>
    decreases |s|
  {
    if s == [] then [] else [s[0]] + Keep(ClearOf(s[0], s[1..], threshold), threshold)
  }

  function Suppress(s: seq<Detection>, threshold: real): seq<Detection> {
    Keep(SortByConfidence(s), threshold)
  }

  /** The detections from i on whose flag is not set. */
  function Unsuppressed(s: seq<Detection>, flags: seq<bool>, i: nat): seq<Detection>
    requires |flags| == |s| && i <= |s|
    decreases |s| - i
  {
    if i == |s| then []
    else if flags[i] then Unsuppressed(s, flags, i + 1)
    else [s[i]] + Unsuppressed(s, flags, i + 1)
  }

  lemma {:induction false} FlagsOff(s: seq<Detection>, flags: seq<bool>, i: nat)
    requires |flags| == |s| && i <= |s| && forall k :: 0 <= k < |s| ==> !flags[k]
    ensures Unsuppressed(s, flags, i) == s[i..]
    decreases |s| - i
  {
    if i < |s| {
      FlagsOff(s, flags, i + 1);
    }
  }

  lemma ClearOfCons(d: Detection, x: Detection, s: seq<Detection>, threshold: real)
    ensures ClearOf(d, [x] + s, threshold) ==
            if Iou(d.bbox, x.bbox) > threshold then ClearOf(d, s, threshold) else [x] + ClearOf(d, s, threshold)
  {
    hide Iou;
    assert ([x] + s)[1..] == s;
  }

  /** Setting the flags of what overlaps d leaves what is clear of d. */
  lemma {:induction false} FlagsClear(d: Detection, s: seq<Detection>, before: seq<bool>, after: seq<bool>, i: nat,
                                      threshold: real)
    requires |before| == |after| == |s| && i <= |s|
    requires forall k :: i <= k < |s| ==> after[k] == (before[k] || Iou(d.bbox, s[k].bbox) > threshold)
    ensures Unsuppressed(s, after, i) == ClearOf(d, Unsuppressed(s, before, i), threshold)
    decreases |s| - i
  {
    hide Iou;
    if i < |s| {
      FlagsClear(d, s, before, after, i + 1, threshold);
      if !before[i] {
        ClearOfCons(d, s[i], Unsuppressed(s, before, i + 1), threshold);
      }
    }
  }

  lemma KeepCons(d: Detection, s: seq<Detection>, threshold: real)
    ensures Keep([d] + s, threshold) == [d] + Keep(ClearOf(d, s, threshold), threshold)
  {
    assert ([d] + s)[1..] == s;
  }

  /** The inner loop: flag what comes after i and overlaps it. */
  method SuppressOverlaps(s: seq<Detection>, i: nat, suppressed: array<bool>, threshold: real)
    requires i < |s| == suppressed.Length && !suppressed[i]
    modifies suppressed
    ensures Unsuppressed(s, suppressed[..], i + 1)
         == ClearOf(s[i], Unsuppressed(s, old(suppressed[..]), i + 1), threshold)
  {
    hide Iou;
    ghost var before := suppressed[..];
    for j := i + 1 to |s|
      invariant forall k :: i + 1 <= k < j ==> suppressed[k] == (before[k] || Iou(s[i].bbox, s[k].bbox) > threshold)
      invariant forall k :: j <= k < |s| ==> suppressed[k] == before[k]
    {
      if !suppressed[j] && Iou(s[i].bbox, s[j].bbox) > threshold {
        suppressed[j] := true;
      }
    }
    FlagsClear(s[i], s, before, suppressed[..], i + 1, threshold);
  }

  method Nms(detections: seq<Detection>, threshold: real) returns (keep: seq<Detection>)
    ensures keep == Suppress(detections, threshold)
  {
    hide Iou, SortByConfidence, ClearOf;
    var sorted := SortByConfidence(detections);
    var suppressed := new bool[|sorted|](_ => false);
    keep := [];
    FlagsOff(sorted, suppressed[..], 0);
    for i := 0 to |sorted|
      invariant keep + Keep(Unsuppressed(sorted, suppressed[..], i), threshold) == Keep(sorted, threshold)
    {
      if suppressed[i] {
        continue;
      }
      keep := keep + [sorted[i]];
      KeepCons(sorted[i], Unsuppressed(sorted, suppressed[..], i + 1), threshold);
      SuppressOverlaps(sorted, i, suppressed, threshold);
    }
  }

  // ----- What the greedy rule guarantees -----

  predicate Overlap(a: Detection, b: Detection, threshold: real) {
    Iou(a.bbox, b.bbox) > threshold
  }

  lemma {:induction false} ClearOfMembers(d: Detection, s: seq<Detection>, threshold: real)
    ensures forall x :: x in ClearOf(d, s, threshold) <==> x in s && !Overlap(d, x, threshold)
  {
    hide Iou;
    if s != [] {
      ClearOfMembers(d, s[1..], threshold);
      assert forall x :: x in s <==> x == s[0] || x in s[1..];
    }
  }

  lemma {:induction false} ClearOfIsPart(d: Detection, s: seq<Detection>, threshold: real)
    ensures multiset(ClearOf(d, s, threshold)) <= multiset(s)
  {
    hide Iou;
    if s != [] {
      ClearOfIsPart(d, s[1..], threshold);
      assert s == [s[0]] + s[1..];
    }
  }

  lemma {:induction false} ClearOfStaysSorted(d: Detection, s: seq<Detection>, threshold: real)
    requires Descending(s)
    ensures Descending(ClearOf(d, s, threshold))
  {
    hide Iou, Descending;
    if s != [] {
      SortedTail(s);
      ClearOfStaysSorted(d, s[1..], threshold);
      ClearOfMembers(d, s[1..], threshold);
      HeadThenDescending(s[0], ClearOf(d, s[1..], threshold));
    }
  }

  lemma {:induction false} NothingToClear(d: Detection, s: seq<Detection>, threshold: real)
    requires forall k :: 0 <= k < |s| ==> !Overlap(d, s[k], threshold)
    ensures ClearOf(d, s, threshold) == s
  {
    hide Iou;
    if s != [] {
      NothingToClear(d, s[1..], threshold);
    }
  }

  /** Pairwise, in order: no kept detection overlaps an earlier one above the threshold. */
  predicate Apart(s: seq<Detection>, threshold: real) {
    forall i, j :: 0 <= i < j < |s| ==> !Overlap(s[i], s[j], threshold)
  }

  /** A dropped detection overlaps a kept one that is at least as confident. */
  ghost predicate Justified(x: Detection, kept: seq<Detection>, threshold: real) {
    exists k :: k in kept && Iou(k.bbox, x.bbox) > threshold && k.confidence >= x.confidence
  }

  lemma {:induction false} KeepIsPart(s: seq<Detection>, threshold: real)
    ensures multiset(Keep(s, threshold)) <= multiset(s)
    decreases |s|
  {
    hide Iou, ClearOf;
    if s != [] {
      var clear := ClearOf(s[0], s[1..], threshold);
      ClearOfIsPart(s[0], s[1..], threshold);
      KeepIsPart(clear, threshold);
      assert s == [s[0]] + s[1..];
    }
  }

  lemma KeptAreClear(d: Detection, s: seq<Detection>, threshold: real)
    ensures forall x :: x in Keep(ClearOf(d, s, threshold), threshold) ==> x in s && !Overlap(d, x, threshold)
  {
    hide Iou, ClearOf, Keep;
    var clear := ClearOf(d, s, threshold);
    KeepIsPart(clear, threshold);
    ClearOfMembers(d, s, threshold);
    forall x | x in Keep(clear, threshold)
      ensures x in clear
    {
      assert x in multiset(Keep(clear, threshold));
    }
  }

  lemma {:induction false} KeepIsSortedAndApart(s: seq<Detection>, threshold: real)
    requires Descending(s)
    ensures Descending(Keep(s, threshold)) && Apart(Keep(s, threshold), threshold)
    decreases |s|
  {
    hide Iou, ClearOf, Descending;
    if s != [] {
      var clear := ClearOf(s[0], s[1..], threshold);
      SortedTail(s);
      ClearOfStaysSorted(s[0], s[1..], threshold);
      KeepIsSortedAndApart(clear, threshold);
      KeptAreClear(s[0], s[1..], threshold);
      HeadThenDescending(s[0], Keep(clear, threshold));
    }
  }

  lemma {:induction false} ClearOfCounts(d: Detection, s: seq<Detection>, threshold: real, x: Detection)
    ensures multiset(ClearOf(d, s, threshold))[x] == if Overlap(d, x, threshold) then 0 else multiset(s)[x]
  {
    hide Iou;
    if s != [] {
      ClearOfCounts(d, s[1..], threshold, x);
      assert s == [s[0]] + s[1..];
    }
  }

  /** Every copy dropped, one of several equal ones included, is justified. */
  lemma {:induction false} DropsAreJustified(s: seq<Detection>, threshold: real, x: Detection)
    requires Descending(s) && multiset(Keep(s, threshold))[x] < multiset(s)[x]
    ensures Justified(x, Keep(s, threshold), threshold)
    decreases |s|
  {
    hide Iou, ClearOf, Descending;
    var d := s[0];
    var clear := ClearOf(d, s[1..], threshold);
    var kept := Keep(clear, threshold);
    SortedTail(s);
    ClearOfCounts(d, s[1..], threshold, x);
    assert s == [d] + s[1..] && x in multiset(s[1..]);
    if Overlap(d, x, threshold) {
      assert d in [d] + kept;
    } else {
      ClearOfStaysSorted(d, s[1..], threshold);
      DropsAreJustified(clear, threshold, x);
      var k :| k in kept && Iou(k.bbox, x.bbox) > threshold && k.confidence >= x.confidence;
      assert k in [d] + kept;
    }
  }

  /** Main result: a sub-multiset, sorted by confidence, without overlapping pairs, and every drop is justified. */
  lemma SuppressionIsSound(s: seq<Detection>, threshold: real)
    ensures var kept := Suppress(s, threshold);
            && multiset(kept) <= multiset(s) && Descending(kept)
            && (forall i, j :: 0 <= i < |kept| && 0 <= j < |kept| && i != j ==>
                                 Iou(kept[i].bbox, kept[j].bbox) <= threshold)
            && (forall x :: multiset(kept)[x] < multiset(s)[x] ==> Justified(x, kept, threshold))
  {
    hide Iou, Keep, SortByConfidence, Justified;
    var sorted := SortByConfidence(s);
    SortIsSorted(s);
    KeepIsPart(sorted, threshold);
    KeepIsSortedAndApart(sorted, threshold);
    forall x | multiset(Keep(sorted, threshold))[x] < multiset(s)[x]
      ensures Justified(x, Keep(sorted, threshold), threshold)
    {
      DropsAreJustified(sorted, threshold, x);
    }
    forall a, b
      ensures Overlap(a, b, threshold) == Overlap(b, a, threshold)
    {
      IouIsSymmetric(a.bbox, b.bbox);
    }
  }

  lemma {:induction false} ApartAllKept(s: seq<Detection>, threshold: real)
    requires Apart(s, threshold)
    ensures Keep(s, threshold) == s
    decreases |s|
  {
    hide Iou, ClearOf;
    if s != [] {
      NothingToClear(s[0], s[1..], threshold);
      ApartAllKept(s[1..], threshold);
    }
  }

  /** Suppressing twice is suppressing once. */
  lemma SuppressionIsIdempotent(s: seq<Detection>, threshold: real)
    ensures Suppress(Suppress(s, threshold), threshold) == Suppress(s, threshold)
  {
    hide Iou, Keep, SortByConfidence;
    SortIsSorted(s);
    KeepIsSortedAndApart(SortByConfidence(s), threshold);
    SortOfSorted(Suppress(s, threshold));
    ApartAllKept(Suppress(s, threshold), threshold);
  }

  // ----- Input order -----

  predicate DistinctConfidences(s: seq<Detection>) {
    forall i, j :: 0 <= i < j < |s| ==> s[i].confidence != s[j].confidence
  }

  /** The most confident detection comes first. */
  lemma FirstIsGreatest(s: seq<Detection>, x: Detection)
    requires Descending(s) && x in multiset(s)
    ensures s != [] && s[0].confidence >= x.confidence && s[0] in multiset(s)
  {
    assert x in s;
  }

  lemma ConfidenceIdentifies(s: seq<Detection>, x: Detection, y: Detection)
    requires DistinctConfidences(s) && x in multiset(s) && y in multiset(s) && x.confidence == y.confidence
    ensures x == y
  {
    assert x in s && y in s;
  }

  lemma TailMultiset(s: seq<Detection>)
    requires s != []
    ensures multiset(s[1..]) == multiset(s) - multiset{s[0]}
  {
    assert s == [s[0]] + s[1..];
  }

  lemma DistinctTail(s: seq<Detection>)
    requires DistinctConfidences(s) && s != []
    ensures DistinctConfidences(s[1..])
  {
  }

  /** Sorted the same way, the same detections come in the same order when no two tie. */
  lemma {:induction false} SortedIsUnique(a: seq<Detection>, b: seq<Detection>)
    requires multiset(a) == multiset(b) && Descending(a) && Descending(b) && DistinctConfidences(a)
    ensures a == b
    decreases |a|
  {
    hide Descending, DistinctConfidences;
    if a == [] {
      assert |multiset(b)| == 0;
    } else {
      SameFirst(a, b);
      SortedTail(a);
      SortedTail(b);
      DistinctTail(a);
      TailMultiset(a);
      TailMultiset(b);
      SortedIsUnique(a[1..], b[1..]);
      assert a == [a[0]] + a[1..] && b == [b[0]] + b[1..];
    }
  }

  lemma SameFirst(a: seq<Detection>, b: seq<Detection>)
    requires multiset(a) == multiset(b) && Descending(a) && Descending(b) && DistinctConfidences(a) && a != []
    ensures b != [] && a[0] == b[0]
  {
    hide Descending, DistinctConfidences;
    assert a[0] in multiset(a);
    FirstIsGreatest(b, a[0]);
    FirstIsGreatest(a, b[0]);
    ConfidenceIdentifies(a, a[0], b[0]);
  }

  /** Distinctness of confidences does not depend on the order of the list. */
  lemma {:induction false} DistinctInAnyOrder(a: seq<Detection>, b: seq<Detection>)
    requires multiset(a) == multiset(b) && DistinctConfidences(a)
    ensures DistinctConfidences(b)
  {
    forall i, j | 0 <= i < j < |b|
      ensures b[i].confidence != b[j].confidence
    {
      assert b[i] in multiset(a) && b[j] in multiset(a);
      if b[i] == b[j] {
        TwiceInMultiset(b, i, j);
        var k :| 0 <= k < |a| && a[k] == b[i];
        OnceInMultiset(a, k);
        assert false;
      }
    }
  }

  lemma TwiceInMultiset(s: seq<Detection>, i: nat, j: nat)
    requires i < j < |s| && s[i] == s[j]
    ensures multiset(s)[s[i]] >= 2
  {
    assert s == s[..j] + ([s[j]] + s[j + 1..]);
    assert s[i] in s[..j];
  }

  lemma OnceInMultiset(s: seq<Detection>, k: nat)
    requires DistinctConfidences(s) && k < |s|
    ensures multiset(s)[s[k]] == 1
  {
    assert s == s[..k] + ([s[k]] + s[k + 1..]);
    assert s[k] !in s[..k] && s[k] !in s[k + 1..];
  }

  /** With distinct confidences the result does not depend on the order of the input. */
  lemma SuppressionIgnoresOrder(a: seq<Detection>, b: seq<Detection>, threshold: real)
    requires multiset(a) == multiset(b) && DistinctConfidences(a)
    ensures Suppress(a, threshold) == Suppress(b, threshold)
  {
    hide Iou, Keep, SortByConfidence;
    SortIsSorted(a);
    SortIsSorted(b);
    DistinctInAnyOrder(a, SortByConfidence(a));
    SortedIsUnique(SortByConfidence(a), SortByConfidence(b));
  }
}
