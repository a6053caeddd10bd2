/** The multi-object tracker: one frame's greedy matching, and the life of track ids over runs of frames. */
module Tracker {
  import opened Boxes

  datatype Kind = Object | Face | Text

  datatype Detection = Detection(bbox: BBox, confidence: real, classId: nat, name: string, kind: Kind)

  datatype Track = Track(id: nat, bbox: BBox, age: nat, visible: nat)

  datatype TrackedDetection = TrackedDetection(detection: Detection, trackId: nat, isNew: bool)

  datatype State = State(tracks: seq<Track>, nextId: nat, maxAge: nat, threshold: real)

  /** A track, a detection and their overlap. */
  datatype Candidate = Candidate(track: nat, det: nat, iou: real)

  // ----- Greedy matching -----

  predicate Qualifies(s: State, dets: seq<Detection>, c: Candidate) {
    c.track < |s.tracks| && c.det < |dets| && c.iou == Iou(s.tracks[c.track].bbox, dets[c.det].bbox) >= s.threshold
  }

  predicate Descending(order: seq<Candidate>) {
    forall i, j :: 0 <= i < j < |order| ==> order[i].iou >= order[j].iou
  }

  /** A list an unstable sort may produce: every qualifying pair, by descending overlap, ties in any order. */
  ghost predicate IsOrder(s: State, dets: seq<Detection>, order: seq<Candidate>) {
    Descending(order) && forall c :: c in order <==> Qualifies(s, dets, c)
  }

  /** A matching, by detection and by track. */
  datatype Matching = Matching(byDet: map<nat, nat>, byTrack: map<nat, nat>)

  function Take(m: Matching, c: Candidate): Matching {
    if c.track in m.byTrack || c.det in m.byDet then m
    else Matching(m.byDet[c.det := c.track], m.byTrack[c.track := c.det])
  }

  function Greedy(order: seq<Candidate>): Matching {
    if order == [] then Matching(map[], map[])
    else Take(Greedy(order[..|order| - 1]), order[|order| - 1])
  }

  /** The pairs of the matching, seen from both sides, are pairs of the list. */
  ghost predicate PairsFrom(m: Matching, order: seq<Candidate>) {
    && (forall d :: d in m.byDet ==> m.byDet[d] in m.byTrack && m.byTrack[m.byDet[d]] == d)
    && (forall t :: t in m.byTrack ==> m.byTrack[t] in m.byDet && m.byDet[m.byTrack[t]] == t)
    && (forall d :: d in m.byDet ==> exists c :: c in order && c.det == d && c.track == m.byDet[d])
  }

  /** The pair is in the matching. */
  predicate Chosen(m: Matching, c: Candidate) {
    c.det in m.byDet && m.byDet[c.det] == c.track
  }

  predicate Meet(c: Candidate, k: Candidate) {
    k.det == c.det || k.track == c.track
  }

  /** The candidate at a place in the list is chosen, or meets one that is and comes before it. */
  ghost predicate Settled(m: Matching, order: seq<Candidate>, j: nat)
    requires j < |order|
  {
    exists i :: 0 <= i <= j && Chosen(m, order[i]) && Meet(order[i], order[j])
  }

  lemma {:induction false} GreedyPairs(order: seq<Candidate>)
    ensures PairsFrom(Greedy(order), order)
  {
    if order != [] {
      var front, last := order[..|order| - 1], order[|order| - 1];
      GreedyPairs(front);
      var m, m' := Greedy(front), Greedy(order);
      assert last in order && forall c :: c in front ==> c in order;
      forall d | d in m'.byDet
        ensures exists c :: c in order && c.det == d && c.track == m'.byDet[d]
      {
        if d in m.byDet {
          var c :| c in front && c.det == d && c.track == m.byDet[d];
          assert c in order;
        }
      }
    }
  }

  /** Whatever the order of the list. */
  lemma {:induction false} GreedySettles(order: seq<Candidate>)
    ensures forall j :: 0 <= j < |order| ==> Settled(Greedy(order), order, j)
  {
    hide Greedy, Settled, Take, PairsFrom;
    if order != [] {
      var front, last := order[..|order| - 1], order[|order| - 1];
      assert order == front + [last];
      GreedySettles(front);
      GreedySnoc(front, last);
      forall j | 0 <= j < |order|
        ensures Settled(Greedy(order), order, j)
      {
        if j < |front| {
          StaysSettled(Greedy(front), front, last, j);
        } else {
          LastIsSettled(front, last);
        }
      }
    }
  }

  lemma GreedySnoc(front: seq<Candidate>, last: Candidate)
    ensures Greedy(front + [last]) == Take(Greedy(front), last)
  {
    assert (front + [last])[..|front|] == front;
  }

  lemma StaysSettled(m: Matching, front: seq<Candidate>, last: Candidate, j: nat)
    requires j < |front| && Settled(m, front, j)
    ensures Settled(Take(m, last), front + [last], j)
  {
    var i :| 0 <= i <= j && Chosen(m, front[i]) && Meet(front[i], front[j]);
    assert (front + [last])[i] == front[i] && (front + [last])[j] == front[j];
    assert Chosen(Take(m, last), front[i]);
  }

  /** Taken, the last candidate settles itself; not taken, a pair that came earlier is in its way. */
  lemma LastIsSettled(front: seq<Candidate>, last: Candidate)
    ensures Settled(Greedy(front + [last]), front + [last], |front|)
  {
    hide Greedy;
    var m := Greedy(front);
    var order := front + [last];
    GreedySnoc(front, last);
    GreedyPairs(front);
    assert order[|front|] == last;
    if last.det in m.byDet || last.track in m.byTrack {
      var d := if last.det in m.byDet then last.det else m.byTrack[last.track];
      var k :| k in front && k.det == d && k.track == m.byDet[d];
      var i :| 0 <= i < |front| && front[i] == k;
      assert order[i] == k && Chosen(Greedy(order), k) && Meet(k, last);
    } else {
      assert Chosen(Greedy(order), last) && Meet(last, last);
    }
  }

  function PairIou(s: State, dets: seq<Detection>, t: nat, d: nat): real
    requires t < |s.tracks| && d < |dets|
  {
    Iou(s.tracks[t].bbox, dets[d].bbox)
  }

  /** The detection or the track of a pair is matched in a pair of at least equal overlap. */
  ghost predicate NoBetter(s: State, dets: seq<Detection>, m: Matching, t: nat, d: nat)
    requires t < |s.tracks| && d < |dets|
    requires forall e :: e in m.byDet ==> e < |dets| && m.byDet[e] < |s.tracks|
  {
    || (d in m.byDet && PairIou(s, dets, m.byDet[d], d) >= PairIou(s, dets, t, d))
    || (exists e :: e in m.byDet && m.byDet[e] == t && PairIou(s, dets, t, e) >= PairIou(s, dets, t, d))
  }

  /** One frame's matching, whatever order the sort gives ties: one-to-one, only qualifying pairs, and every qualifying
      pair has its detection or its track matched in a pair of at least equal overlap; so it is maximal and stable. */
  lemma MatchingIsStable(s: State, dets: seq<Detection>, order: seq<Candidate>)
    requires IsOrder(s, dets, order)
    ensures var m := Greedy(order);
      && (forall d :: d in m.byDet ==> d < |dets| && m.byDet[d] < |s.tracks|)
      && (forall d :: d in m.byDet ==> PairIou(s, dets, m.byDet[d], d) >= s.threshold)
      && (forall d, e :: d in m.byDet && e in m.byDet && d != e ==> m.byDet[d] != m.byDet[e])
      && (forall t, d :: 0 <= t < |s.tracks| && 0 <= d < |dets| ==>
            PairIou(s, dets, t, d) >= s.threshold ==> NoBetter(s, dets, m, t, d))
  {
    hide Iou, Greedy, Descending;
    var m := Greedy(order);
    GreedyPairs(order);
    forall d | d in m.byDet
      ensures d < |dets| && m.byDet[d] < |s.tracks| && PairIou(s, dets, m.byDet[d], d) >= s.threshold
    {
      var c :| c in order && c.det == d && c.track == m.byDet[d];
      assert Qualifies(s, dets, c);
    }
    forall t, d | 0 <= t < |s.tracks| && 0 <= d < |dets|
      ensures PairIou(s, dets, t, d) >= s.threshold ==> NoBetter(s, dets, m, t, d)
    {
      if PairIou(s, dets, t, d) >= s.threshold {
        var k := Blocker(s, dets, order, Candidate(t, d, PairIou(s, dets, t, d)));
      }
    }
  }

  /** The pair chosen in place of a candidate, or the candidate itself. */
  lemma Blocker(s: State, dets: seq<Detection>, order: seq<Candidate>, c: Candidate) returns (k: Candidate)
    requires IsOrder(s, dets, order) && Qualifies(s, dets, c)
    ensures Qualifies(s, dets, k) && k in order && Chosen(Greedy(order), k)
    ensures k.iou >= c.iou && (k.det == c.det || k.track == c.track)
  {
    hide Greedy, Iou;
    assert c in order;
    GreedySettles(order);
    var j :| 0 <= j < |order| && order[j] == c;
    assert Settled(Greedy(order), order, j);
    var i :| 0 <= i <= j && Chosen(Greedy(order), order[i]) && Meet(order[i], order[j]);
    k := order[i];
    assert i < j ==> order[i].iou >= order[j].iou;
  }

  // ----- One update -----

  /** A matched track takes its detection's box and starts over; an unmatched one ages. */
  function Refreshed(t: Track, dets: seq<Detection>, m: Matching, i: nat): Track {
    if i in m.byTrack && m.byTrack[i] < |dets| then Track(t.id, dets[m.byTrack[i]].bbox, 0, t.visible + 1)
    else t.(age := t.age + 1)
  }

  function RefreshedAll(tracks: seq<Track>, dets: seq<Detection>, m: Matching): seq<Track> {
    seq(|tracks|, i requires 0 <= i < |tracks| => Refreshed(tracks[i], dets, m, i))
  }

  /** The tracks not older than the greatest age. */
  function Live(tracks: seq<Track>, maxAge: nat): seq<Track> {
    if tracks == [] then []
    else Live(tracks[..|tracks| - 1], maxAge)
         + if tracks[|tracks| - 1].age <= maxAge then [tracks[|tracks| - 1]] else []
  }

  /** How many of the first detections are unmatched. */
  function Unmatched(m: Matching, d: nat): nat {
    if d == 0 then 0 else Unmatched(m, d - 1) + if d - 1 in m.byDet then 0 else 1
  }

  /** The tracks born for the unmatched ones of the first detections. */
  function Born(dets: seq<Detection>, m: Matching, nextId: nat, d: nat): seq<Track>
    requires d <= |dets|
  {
    if d == 0 then []
    else Born(dets, m, nextId, d - 1)
         + if d - 1 in m.byDet then [] else [Track(nextId + Unmatched(m, d - 1), dets[d - 1].bbox, 0, 1)]
  }

  function IdOf(s: State, m: Matching, d: nat): nat {
    if d in m.byDet then (if m.byDet[d] < |s.tracks| then s.tracks[m.byDet[d]].id else 0)
    else s.nextId + Unmatched(m, d)
  }

  function Report(s: State, dets: seq<Detection>, m: Matching): seq<TrackedDetection> {
    seq(|dets|, d requires 0 <= d < |dets| => TrackedDetection(dets[d], IdOf(s, m, d), d !in m.byDet))
  }

  function Updated(s: State, dets: seq<Detection>, order: seq<Candidate>): (State, seq<TrackedDetection>) {
    var m := Greedy(order);
    var tracks := Live(RefreshedAll(s.tracks, dets, m), s.maxAge) + Born(dets, m, s.nextId, |dets|);
    (s.(tracks := tracks, nextId := s.nextId + Unmatched(m, |dets|)), Report(s, dets, m))
  }

  lemma InsertedStaysSorted(order: seq<Candidate>, c: Candidate, j: nat)
    requires Descending(order) && j <= |order|
    requires forall k :: j <= k < |order| ==> order[k].iou < c.iou
    requires forall k :: 0 <= k < j ==> order[k].iou >= c.iou
    ensures Descending(order[..j] + [c] + order[j..])
  {
  }

  lemma InsertedMultiset(order: seq<Candidate>, c: Candidate, j: nat)
    requires j <= |order|
    ensures multiset(order[..j] + [c] + order[j..]) == multiset(order) + multiset{c}
  {
    assert order == order[..j] + order[j..];
  }

  /** Sorting the candidates: a permutation by descending overlap. Nothing more is promised about ties. */
  method SortUnstableByIou(candidates: seq<Candidate>) returns (order: seq<Candidate>)
    ensures Descending(order) && multiset(order) == multiset(candidates)
  {
    hide Descending;
    NothingToSort();
    order := [];
    for i := 0 to |candidates|
      invariant Descending(order) && multiset(order) == multiset(candidates[..i])
    {
      var j := InsertionPoint(order, candidates[i]);
      InsertedStaysSorted(order, candidates[i], j);
      InsertedMultiset(order, candidates[i], j);
      assert candidates[..i + 1] == candidates[..i] + [candidates[i]];
      order := order[..j] + [candidates[i]] + order[j..];
    }
    assert candidates[..|candidates|] == candidates;
  }

  lemma NothingToSort()
    ensures Descending([])
  {
  }

  method InsertionPoint(order: seq<Candidate>, c: Candidate) returns (j: nat)
    requires Descending(order)
    ensures j <= |order|
    ensures forall k :: j <= k < |order| ==> order[k].iou < c.iou
    ensures forall k :: 0 <= k < j ==> order[k].iou >= c.iou
  {
    j := |order|;
    while j > 0 && order[j - 1].iou < c.iou
      invariant 0 <= j <= |order|
      invariant forall k :: j <= k < |order| ==> order[k].iou < c.iou
    {
      j := j - 1;
    }
  }

  /** The state of the greedy loop: flags, ids and tracks as the matching so far says. */
  ghost predicate Assigned(was: State, dets: seq<Detection>, m: Matching, tracks: seq<Track>,
                           matchedTracks: seq<bool>, matchedDets: seq<bool>, ids: seq<nat>) {
    && |matchedTracks| == |tracks| == |was.tracks| && |matchedDets| == |ids| == |dets|
    && (forall t :: 0 <= t < |tracks| ==> matchedTracks[t] == (t in m.byTrack))
    && (forall d :: 0 <= d < |dets| ==> matchedDets[d] == (d in m.byDet))
    && (forall d :: 0 <= d < |dets| && d in m.byDet ==> ids[d] == IdOf(was, m, d))
    && (forall t :: 0 <= t < |tracks| ==>
          tracks[t] == if t in m.byTrack then Refreshed(was.tracks[t], dets, m, t) else was.tracks[t])
  }

  lemma AssignOne(was: State, dets: seq<Detection>, m: Matching, tracks: seq<Track>,
                  matchedTracks: seq<bool>, matchedDets: seq<bool>, ids: seq<nat>, c: Candidate)
    requires Assigned(was, dets, m, tracks, matchedTracks, matchedDets, ids)
    requires c.track < |tracks| && c.det < |dets| && !matchedTracks[c.track] && !matchedDets[c.det]
    ensures var t := tracks[c.track];
            Assigned(was, dets, Take(m, c), tracks[c.track := Track(t.id, dets[c.det].bbox, 0, t.visible + 1)],
                     matchedTracks[c.track := true], matchedDets[c.det := true], ids[c.det := t.id])
  {
  }

  class ObjectTracker {
    var tracks: seq<Track>
    var nextId: nat
    const maxAge: nat
    const iouThreshold: real

    function Current(): State
      reads this
    {
      State(tracks, nextId, maxAge, iouThreshold)
    }

    constructor (maxAge: nat, iouThreshold: real)
      ensures Current() == State([], 1, maxAge, iouThreshold)
    {
      tracks := [];
      nextId := 1;
      this.maxAge := maxAge;
      this.iouThreshold := iouThreshold;
    }

    method Candidates(dets: seq<Detection>) returns (candidates: seq<Candidate>)
      ensures forall c :: c in candidates <==> Qualifies(Current(), dets, c)
    {
      hide Iou;
      candidates := [];
      for ti := 0 to |tracks|
        invariant forall c :: c in candidates <==> c.track < ti && Qualifies(Current(), dets, c)
      {
        for di := 0 to |dets|
          invariant forall c :: c in candidates <==>
                      (c.track < ti || (c.track == ti && c.det < di)) && Qualifies(Current(), dets, c)
        {
          var iou := Iou(tracks[ti].bbox, dets[di].bbox);
          if iou >= iouThreshold {
            candidates := candidates + [Candidate(ti, di, iou)];
          }
        }
      }
    }

    /** The greedy loop: each candidate whose track and detection are both free matches them. */
    method Assign(dets: seq<Detection>, order: seq<Candidate>)
        returns (matchedTracks: seq<bool>, matchedDets: seq<bool>, detTrackId: seq<nat>)
      requires IsOrder(Current(), dets, order)
      modifies `tracks
      ensures Assigned(old(Current()), dets, Greedy(order), tracks, matchedTracks, matchedDets, detTrackId)
    {
      hide Iou, Greedy, Take, Descending;
      matchedTracks := seq(|tracks|, _ => false);
      matchedDets := seq(|dets|, _ => false);
      detTrackId := seq(|dets|, _ => 0);
      ghost var was := Current();
      NothingMatched(order);
      for k := 0 to |order|
        invariant Assigned(was, dets, Greedy(order[..k]), tracks, matchedTracks, matchedDets, detTrackId)
      {
        var ti, di := order[k].track, order[k].det;
        assert order[k] in order && Qualifies(was, dets, order[k]);
        GreedySnoc(order[..k], order[k]);
        assert order[..k] + [order[k]] == order[..k + 1];
        if matchedTracks[ti] || matchedDets[di] {
          NotTaken(Greedy(order[..k]), order[k]);
          continue;
        }
        AssignOne(was, dets, Greedy(order[..k]), tracks, matchedTracks, matchedDets, detTrackId, order[k]);
        matchedTracks := matchedTracks[ti := true];
        matchedDets := matchedDets[di := true];
        detTrackId := detTrackId[di := tracks[ti].id];
        tracks := tracks[ti := Track(tracks[ti].id, dets[di].bbox, 0, tracks[ti].visible + 1)];
      }
      assert order[..|order|] == order;
    }

    /** Unmatched tracks age, then the stale ones are dropped. */
    method AgeAndPrune(ghost was: State, ghost m: Matching, dets: seq<Detection>, matchedTracks: seq<bool>)
      requires |matchedTracks| == |tracks| == |was.tracks| && maxAge == was.maxAge
      requires forall t :: 0 <= t < |tracks| ==> matchedTracks[t] == (t in m.byTrack)
      requires forall t :: t in m.byTrack ==> m.byTrack[t] < |dets|
      requires forall t :: 0 <= t < |tracks| ==>
                 tracks[t] == if t in m.byTrack then Refreshed(was.tracks[t], dets, m, t) else was.tracks[t]
      modifies `tracks
      ensures tracks == Live(RefreshedAll(was.tracks, dets, m), was.maxAge)
    {
      for ti := 0 to |matchedTracks|
        invariant |tracks| == |matchedTracks|
        invariant forall t :: 0 <= t < ti ==> tracks[t] == Refreshed(was.tracks[t], dets, m, t)
        invariant forall t :: ti <= t < |tracks| ==>
                    tracks[t] == if t in m.byTrack then Refreshed(was.tracks[t], dets, m, t) else was.tracks[t]
      {
        if !matchedTracks[ti] {
          tracks := tracks[ti := tracks[ti].(age := tracks[ti].age + 1)];
        }
      }
      assert tracks == RefreshedAll(was.tracks, dets, m);
      Retain();
    }

    /** Vec::retain with the test on the age. */
    method Retain()
      modifies `tracks
      ensures tracks == Live(old(tracks), maxAge)
    {
      var kept: seq<Track> := [];
      for i := 0 to |tracks|
        invariant kept == Live(tracks[..i], maxAge)
      {
        assert tracks[..i + 1][..i] == tracks[..i];
        if tracks[i].age <= maxAge {
          kept := kept + [tracks[i]];
        }
      }
      assert tracks[..|tracks|] == tracks;
      tracks := kept;
    }

    /** Every unmatched detection starts a track with the next id. */
    method Spawn(ghost was: State, ghost m: Matching, dets: seq<Detection>, matchedDets: seq<bool>, ids: seq<nat>)
        returns (detTrackId: seq<nat>)
      requires |matchedDets| == |ids| == |dets| && nextId == was.nextId
      requires forall d :: 0 <= d < |dets| ==> matchedDets[d] == (d in m.byDet)
      requires forall d :: 0 <= d < |dets| && d in m.byDet ==> ids[d] == IdOf(was, m, d)
      modifies `tracks, `nextId
      ensures tracks == old(tracks) + Born(dets, m, was.nextId, |dets|)
      ensures nextId == was.nextId + Unmatched(m, |dets|)
      ensures |detTrackId| == |dets| && forall d :: 0 <= d < |dets| ==> detTrackId[d] == IdOf(was, m, d)
    {
      detTrackId := ids;
      for di := 0 to |dets|
        invariant tracks == old(tracks) + Born(dets, m, was.nextId, di)
        invariant nextId == was.nextId + Unmatched(m, di)
        invariant |detTrackId| == |dets| && forall d :: 0 <= d < di ==> detTrackId[d] == IdOf(was, m, d)
        invariant forall d :: di <= d < |dets| ==> detTrackId[d] == ids[d]
      {
        if !matchedDets[di] {
          var id := nextId;
          nextId := nextId + 1;
          detTrackId := detTrackId[di := id];
          tracks := tracks + [Track(id, dets[di].bbox, 0, 1)];
        }
      }
    }

    /** One frame. The only freedom left is the order the sort gives to candidates of equal overlap. */
    method Update(dets: seq<Detection>) returns (out: seq<TrackedDetection>)
      modifies this
      ensures exists order :: IsOrder(old(Current()), dets, order)
                              && (Current(), out) == Updated(old(Current()), dets, order)
    {
      hide Iou, Greedy, IsOrder, Live, Born, IdOf, PairsFrom, Qualifies, Descending, RefreshedAll, Unmatched;
      ghost var was := Current();
      var candidates := Candidates(dets);
      var order := SortUnstableByIou(candidates);
      SameMembers(was, dets, candidates, order);
      var matchedTracks, matchedDets, ids := Assign(dets, order);
      ghost var m := Greedy(order);
      MatchedDetsExist(was, dets, order);
      AgeAndPrune(was, m, dets, matchedTracks);
      ids := Spawn(was, m, dets, matchedDets, ids);
      out := seq(|dets|, d requires 0 <= d < |dets| && |ids| == |matchedDets| == |dets|
                 => TrackedDetection(dets[d], ids[d], !matchedDets[d]));
      assert out == Report(was, dets, m);
    }
  }

  lemma NothingMatched(order: seq<Candidate>)
    ensures Greedy(order[..0]) == Matching(map[], map[])
  {
  }

  lemma NotTaken(m: Matching, c: Candidate)
    requires c.track in m.byTrack || c.det in m.byDet
    ensures Take(m, c) == m
  {
  }

  lemma SameMembers(s: State, dets: seq<Detection>, candidates: seq<Candidate>, order: seq<Candidate>)
    requires Descending(order) && multiset(order) == multiset(candidates)
    requires forall c :: c in candidates <==> Qualifies(s, dets, c)
    ensures IsOrder(s, dets, order)
  {
    forall c
      ensures c in order <==> c in candidates
    {
      assert c in multiset(order) <==> c in multiset(candidates);
    }
  }

  lemma MatchedDetsExist(s: State, dets: seq<Detection>, order: seq<Candidate>)
    requires IsOrder(s, dets, order)
    ensures var m := Greedy(order);
            && (forall d :: d in m.byDet ==> d < |dets| && m.byDet[d] < |s.tracks|)
            && (forall t :: t in m.byTrack ==> t < |s.tracks| && m.byTrack[t] < |dets|)
            && PairsFrom(m, order)
  {
    hide Greedy, Iou, Descending;
    GreedyPairs(order);
    var m := Greedy(order);
    forall d | d in m.byDet
      ensures d < |dets| && m.byDet[d] < |s.tracks|
    {
      var c :| c in order && c.det == d && c.track == m.byDet[d];
      assert Qualifies(s, dets, c);
    }
  }

  // ----- When the order of ties is free -----

  /** No two qualifying pairs overlap equally. */
  ghost predicate NoTies(s: State, dets: seq<Detection>) {
    forall c, k :: Qualifies(s, dets, c) && Qualifies(s, dets, k) && c.iou == k.iou ==> c == k
  }

  /** The candidates that overlap more than a given one. */
  ghost function Above(order: seq<Candidate>, c: Candidate): set<Candidate> {
    set k | k in order && k.iou > c.iou
  }

  /** Without ties a pair chosen in one order is chosen in any other: were it not, a better pair would stand in its
      way there, and that one would not be chosen here. */
  lemma {:induction false} ChosenInAnyOrder(s: State, dets: seq<Detection>, a: seq<Candidate>, b: seq<Candidate>,
                                            c: Candidate)
    requires IsOrder(s, dets, a) && IsOrder(s, dets, b) && NoTies(s, dets)
    requires c in a && Chosen(Greedy(a), c)
    ensures Chosen(Greedy(b), c)
    decreases |Above(a, c)|
  {
    hide Greedy, IsOrder, NoTies, Above, Chosen, Qualifies;
    assert Qualifies(s, dets, c) by { InOrder(s, dets, a, c); }
    var k := Blocker(s, dets, b, c);
    if k != c {
      FewerAbove(s, dets, a, b, c, k);
      ChosenInAnyOrder(s, dets, b, a, k);
      ChosenOnce(s, dets, a, c, k);
      assert false;
    }
  }

  lemma InOrder(s: State, dets: seq<Detection>, order: seq<Candidate>, c: Candidate)
    requires IsOrder(s, dets, order)
    ensures c in order <==> Qualifies(s, dets, c)
  {
  }

  lemma FewerAbove(s: State, dets: seq<Detection>, a: seq<Candidate>, b: seq<Candidate>, c: Candidate, k: Candidate)
    requires IsOrder(s, dets, a) && IsOrder(s, dets, b) && NoTies(s, dets)
    requires c in a && k in b && k != c && k.iou >= c.iou
    ensures |Above(b, k)| < |Above(a, c)|
  {
    hide Iou, Descending;
    assert Qualifies(s, dets, c) && Qualifies(s, dets, k);
    assert k in Above(a, c) && k !in Above(b, k);
    forall x | x in Above(b, k)
      ensures x in Above(a, c)
    {
      assert Qualifies(s, dets, x);
    }
    SmallerSet(Above(b, k), Above(a, c));
  }

  lemma SmallerSet(a: set<Candidate>, b: set<Candidate>)
    requires a < b
    ensures |a| < |b|
  {
    assert b == a + (b - a);
    assert |b| == |a| + |b - a|;
  }

  lemma ChosenOnce(s: State, dets: seq<Detection>, order: seq<Candidate>, c: Candidate, k: Candidate)
    requires Qualifies(s, dets, c) && Qualifies(s, dets, k)
    requires Chosen(Greedy(order), c) && Chosen(Greedy(order), k)
    ensures c.det == k.det || c.track == k.track ==> c == k
  {
    hide Greedy, Iou;
    GreedyPairs(order);
  }

  /** Without ties the update is the same whatever the sort does. */
  lemma UpdateIsDeterminedWithoutTies(s: State, dets: seq<Detection>, a: seq<Candidate>, b: seq<Candidate>)
    requires IsOrder(s, dets, a) && IsOrder(s, dets, b) && NoTies(s, dets)
    ensures Greedy(a) == Greedy(b) && Updated(s, dets, a) == Updated(s, dets, b)
  {
    hide Greedy, IsOrder, NoTies, Live, Born, Report;
    ChoicesCarryOver(s, dets, a, b);
    ChoicesCarryOver(s, dets, b, a);
    SameChoices(Greedy(a), a, Greedy(b), b);
  }

  lemma ChoicesCarryOver(s: State, dets: seq<Detection>, a: seq<Candidate>, b: seq<Candidate>)
    requires IsOrder(s, dets, a) && IsOrder(s, dets, b) && NoTies(s, dets)
    ensures PairsFrom(Greedy(a), a)
    ensures forall d :: d in Greedy(a).byDet ==> d in Greedy(b).byDet && Greedy(b).byDet[d] == Greedy(a).byDet[d]
  {
    hide Greedy, IsOrder, NoTies;
    GreedyPairs(a);
    forall d | d in Greedy(a).byDet
      ensures d in Greedy(b).byDet && Greedy(b).byDet[d] == Greedy(a).byDet[d]
    {
      var c :| c in a && c.det == d && c.track == Greedy(a).byDet[d];
      ChosenInAnyOrder(s, dets, a, b, c);
    }
  }

  lemma SameChoices(m: Matching, a: seq<Candidate>, n: Matching, b: seq<Candidate>)
    requires PairsFrom(m, a) && PairsFrom(n, b)
    requires forall d :: d in m.byDet ==> d in n.byDet && n.byDet[d] == m.byDet[d]
    requires forall d :: d in n.byDet ==> d in m.byDet && m.byDet[d] == n.byDet[d]
    ensures m == n
  {
    assert m.byDet == n.byDet;
    assert m.byTrack == n.byTrack;
  }

  // ----- What one frame does to the ids -----

  predicate DistinctIds(tracks: seq<Track>) {
    forall i, j :: 0 <= i < j < |tracks| ==> tracks[i].id != tracks[j].id
  }

  /** Live ids are pairwise distinct, positive and below the next id, and no track is too old. */
  ghost predicate ValidState(s: State) {
    && DistinctIds(s.tracks) && s.nextId >= 1
    && forall t :: t in s.tracks ==> 1 <= t.id < s.nextId && t.age <= s.maxAge
  }

  predicate Reported(out: seq<TrackedDetection>, id: int) {
    exists i :: 0 <= i < |out| && out[i].trackId == id
  }

  /** An id was reported for a detection with this box. */
  predicate ReportedBox(out: seq<TrackedDetection>, id: int, box: BBox) {
    exists i :: 0 <= i < |out| && out[i].trackId == id && out[i].detection.bbox == box
  }

  predicate HasTrack(tracks: seq<Track>, id: int) {
    exists i :: 0 <= i < |tracks| && tracks[i].id == id
  }

  lemma {:induction false} LiveMembers(tracks: seq<Track>, maxAge: nat)
    ensures forall t :: t in Live(tracks, maxAge) <==> t in tracks && t.age <= maxAge
    ensures DistinctIds(tracks) ==> DistinctIds(Live(tracks, maxAge))
  {
    if tracks != [] {
      var front, last := tracks[..|tracks| - 1], tracks[|tracks| - 1];
      assert tracks == front + [last];
      LiveMembers(front, maxAge);
      if DistinctIds(tracks) {
        assert forall t :: t in front ==> t.id != last.id;
      }
    }
  }

  lemma {:induction false} UnmatchedGrows(m: Matching, d: nat, e: nat)
    requires d < e && d !in m.byDet
    ensures Unmatched(m, d) < Unmatched(m, e)
    decreases e
  {
    if d < e - 1 {
      UnmatchedGrows(m, d, e - 1);
    }
  }

  lemma {:induction false} BornMembers(dets: seq<Detection>, m: Matching, nextId: nat, d: nat)
    requires d <= |dets|
    ensures forall k :: 0 <= k < |Born(dets, m, nextId, d)| ==>
              var t := Born(dets, m, nextId, d)[k];
              nextId <= t.id < nextId + Unmatched(m, d) && t.age == 0 && t.visible == 1
    ensures DistinctIds(Born(dets, m, nextId, d))
  {
    if d > 0 {
      BornMembers(dets, m, nextId, d - 1);
    }
  }

  lemma {:induction false} BornFor(dets: seq<Detection>, m: Matching, nextId: nat, d: nat, e: nat) returns (k: nat)
    requires e < d <= |dets| && e !in m.byDet
    ensures k < |Born(dets, m, nextId, d)| && Born(dets, m, nextId, d)[k].id == nextId + Unmatched(m, e)
    decreases d
  {
    if e < d - 1 {
      k := BornFor(dets, m, nextId, d - 1, e);
    } else {
      k := |Born(dets, m, nextId, d)| - 1;
    }
  }

  /** Every new id of a frame is the id of the unmatched detection counted to it. */
  lemma {:induction false} UnmatchedReaches(m: Matching, d: nat, n: nat) returns (e: nat)
    requires n < Unmatched(m, d)
    ensures e < d && e !in m.byDet && Unmatched(m, e) == n
  {
    if n == Unmatched(m, d - 1) {
      e := d - 1;
    } else {
      e := UnmatchedReaches(m, d - 1, n);
    }
  }

  /** The report of a frame: one entry per detection in order, distinct ids, new ids above all old ones. */
  ghost predicate FreshReport(s: State, dets: seq<Detection>, s': State, out: seq<TrackedDetection>) {
    && |out| == |dets| && (forall i :: 0 <= i < |out| ==> out[i].detection == dets[i])
    && (forall i, j :: 0 <= i < j < |out| ==> out[i].trackId != out[j].trackId)
    && (forall i :: 0 <= i < |out| ==>
          if out[i].isNew then s.nextId <= out[i].trackId < s'.nextId else HasTrack(s.tracks, out[i].trackId))
    && (forall id :: s.nextId <= id < s'.nextId ==> Reported(out, id))
  }

  /** A track after a frame is reported in it with its box, or is a track of before that was not and is one older. */
  ghost predicate TrackComesFrom(s: State, out: seq<TrackedDetection>, t': Track) {
    if t'.age == 0 then
      && Reported(out, t'.id) && ReportedBox(out, t'.id, t'.bbox)
      && ((t'.visible == 1 && t'.id >= s.nextId)
          || exists t :: t in s.tracks && t'.id == t.id && t'.visible == t.visible + 1)
    else
      && !Reported(out, t'.id)
      && exists t :: t in s.tracks && t' == t.(age := t.age + 1)
  }

  ghost predicate TracksFollow(s: State, out: seq<TrackedDetection>, s': State) {
    && (forall t' :: t' in s'.tracks ==> TrackComesFrom(s, out, t'))
    && (forall i :: 0 <= i < |out| ==> HasTrack(s'.tracks, out[i].trackId))
    && (forall t :: t in s.tracks && t.age < s.maxAge ==> HasTrack(s'.tracks, t.id))
  }

  lemma InTracks(tracks: seq<Track>, t: Track)
    requires t in tracks
    ensures HasTrack(tracks, t.id)
  {
  }

  /** Where the id of each reported detection comes from. */
  lemma IdRange(s: State, dets: seq<Detection>, order: seq<Candidate>, d: nat)
    requires ValidState(s) && IsOrder(s, dets, order) && d < |dets|
    ensures var m := Greedy(order);
            var id := IdOf(s, m, d);
            if d in m.byDet then m.byDet[d] < |s.tracks| && id == s.tracks[m.byDet[d]].id && 1 <= id < s.nextId
            else s.nextId <= id < s.nextId + Unmatched(m, |dets|)
  {
    hide Greedy, IsOrder, DistinctIds;
    MatchedDetsExist(s, dets, order);
    var m := Greedy(order);
    if d in m.byDet {
      assert s.tracks[m.byDet[d]] in s.tracks;
    } else {
      UnmatchedGrows(m, d, |dets|);
    }
  }

  lemma IdsDiffer(s: State, dets: seq<Detection>, order: seq<Candidate>, i: nat, j: nat)
    requires ValidState(s) && IsOrder(s, dets, order) && i < j < |dets|
    ensures IdOf(s, Greedy(order), i) != IdOf(s, Greedy(order), j)
  {
    hide Greedy, IsOrder, IdOf;
    IdRange(s, dets, order, i);
    IdRange(s, dets, order, j);
    MatchedDetsExist(s, dets, order);
    var m := Greedy(order);
    if i !in m.byDet && j !in m.byDet {
      UnmatchedGrows(m, i, j);
      UnmatchedIds(s, m, i);
      UnmatchedIds(s, m, j);
    } else if i in m.byDet && j in m.byDet {
      assert m.byDet[i] != m.byDet[j];
    }
  }

  lemma UnmatchedIds(s: State, m: Matching, d: nat)
    requires d !in m.byDet
    ensures IdOf(s, m, d) == s.nextId + Unmatched(m, d)
  {
  }

  lemma ReportIsFresh(s: State, dets: seq<Detection>, order: seq<Candidate>)
    requires ValidState(s) && IsOrder(s, dets, order)
    ensures FreshReport(s, dets, Updated(s, dets, order).0, Updated(s, dets, order).1)
  {
    hide Greedy, IsOrder, Live, Born, IdOf, ValidState, DistinctIds;
    var m := Greedy(order);
    var (s', out) := Updated(s, dets, order);
    forall d | 0 <= d < |dets|
      ensures if out[d].isNew then s.nextId <= out[d].trackId < s'.nextId else HasTrack(s.tracks, out[d].trackId)
    {
      IdRange(s, dets, order, d);
    }
    forall i, j | 0 <= i < j < |dets|
      ensures out[i].trackId != out[j].trackId
    {
      IdsDiffer(s, dets, order, i, j);
    }
    forall id | s.nextId <= id < s'.nextId
      ensures Reported(out, id)
    {
      var e := UnmatchedReaches(m, |dets|, id - s.nextId);
      UnmatchedIds(s, m, e);
      assert out[e].trackId == id;
    }
  }

  // ----- How the tracks follow -----

  lemma RefreshedIsDistinct(s: State, dets: seq<Detection>, m: Matching)
    requires DistinctIds(s.tracks)
    ensures DistinctIds(RefreshedAll(s.tracks, dets, m))
  {
  }

  /** The new tracks: the live refreshed ones, then the born ones, with ids that never meet. */
  lemma NextStateIsValid(s: State, dets: seq<Detection>, order: seq<Candidate>)
    requires ValidState(s)
    ensures ValidState(Updated(s, dets, order).0)
  {
    hide Greedy, Live, Born;
    var m := Greedy(order);
    var refreshed := RefreshedAll(s.tracks, dets, m);
    RefreshedIsDistinct(s, dets, m);
    LiveMembers(refreshed, s.maxAge);
    BornMembers(dets, m, s.nextId, |dets|);
    var old', new' := Live(refreshed, s.maxAge), Born(dets, m, s.nextId, |dets|);
    forall k | 0 <= k < |old'|
      ensures 1 <= old'[k].id < s.nextId && old'[k].age <= s.maxAge
    {
      assert old'[k] in refreshed;
      var i :| 0 <= i < |refreshed| && refreshed[i] == old'[k];
      assert s.tracks[i] in s.tracks;
    }
  }

  /** A matched track is reported and restarted; it is never too old, so it stays. */
  lemma TracksFollowReport(s: State, dets: seq<Detection>, order: seq<Candidate>)
    requires ValidState(s) && IsOrder(s, dets, order)
    ensures TracksFollow(s, Updated(s, dets, order).1, Updated(s, dets, order).0)
  {
    hide Greedy, IsOrder, Live, Born, ValidState, TrackComesFrom, IdOf;
    var m := Greedy(order);
    var (s', out) := Updated(s, dets, order);
    var refreshed := RefreshedAll(s.tracks, dets, m);
    LiveMembers(refreshed, s.maxAge);
    forall t' | t' in s'.tracks
      ensures TrackComesFrom(s, out, t')
    {
      if t' in Live(refreshed, s.maxAge) {
        var i :| 0 <= i < |refreshed| && refreshed[i] == t';
        RefreshedComesFrom(s, dets, order, i);
      } else {
        var k :| 0 <= k < |Born(dets, m, s.nextId, |dets|)| && Born(dets, m, s.nextId, |dets|)[k] == t';
        BornComesFrom(s, dets, order, k);
      }
    }
    forall d | 0 <= d < |out|
      ensures HasTrack(s'.tracks, out[d].trackId)
    {
      ReportedHasTrack(s, dets, order, d);
    }
    forall t | t in s.tracks && t.age < s.maxAge
      ensures HasTrack(s'.tracks, t.id)
    {
      var i :| 0 <= i < |s.tracks| && s.tracks[i] == t;
      assert refreshed[i] in s'.tracks;
      InTracks(s'.tracks, refreshed[i]);
    }
  }

  lemma RefreshedComesFrom(s: State, dets: seq<Detection>, order: seq<Candidate>, i: nat)
    requires ValidState(s) && IsOrder(s, dets, order) && i < |s.tracks|
    ensures TrackComesFrom(s, Report(s, dets, Greedy(order)), RefreshedAll(s.tracks, dets, Greedy(order))[i])
  {
    hide Greedy, IsOrder, Iou;
    var m := Greedy(order);
    var out := Report(s, dets, m);
    MatchedDetsExist(s, dets, order);
    assert s.tracks[i] in s.tracks;
    if i in m.byTrack {
      assert out[m.byTrack[i]].trackId == s.tracks[i].id;
      assert out[m.byTrack[i]].detection == dets[m.byTrack[i]];
    } else {
      forall d | 0 <= d < |out|
        ensures out[d].trackId != s.tracks[i].id
      {
        IdRange(s, dets, order, d);
      }
    }
  }

  lemma BornComesFrom(s: State, dets: seq<Detection>, order: seq<Candidate>, k: nat)
    requires ValidState(s) && IsOrder(s, dets, order) && k < |Born(dets, Greedy(order), s.nextId, |dets|)|
    ensures TrackComesFrom(s, Report(s, dets, Greedy(order)), Born(dets, Greedy(order), s.nextId, |dets|)[k])
  {
    hide Greedy, IsOrder, Born, ValidState;
    var m := Greedy(order);
    BornMembers(dets, m, s.nextId, |dets|);
    var t := Born(dets, m, s.nextId, |dets|)[k];
    var e := BornOf(dets, m, s.nextId, |dets|, k);
    UnmatchedIds(s, m, e);
    assert Report(s, dets, m)[e].trackId == t.id && Report(s, dets, m)[e].detection == dets[e];
  }

  /** Each born track is that of one unmatched detection. */
  lemma {:induction false} BornOf(dets: seq<Detection>, m: Matching, nextId: nat, d: nat, k: nat) returns (e: nat)
    requires d <= |dets| && k < |Born(dets, m, nextId, d)|
    ensures e < d && e !in m.byDet
    ensures Born(dets, m, nextId, d)[k].id == nextId + Unmatched(m, e) && Born(dets, m, nextId, d)[k].bbox == dets[e].bbox
    decreases d
  {
    if k < |Born(dets, m, nextId, d - 1)| {
      e := BornOf(dets, m, nextId, d - 1, k);
    } else {
      e := d - 1;
    }
  }

  /** After a frame the track under the id of a detection carries that detection's box. */
  lemma TracksCarryTheirBoxes(s: State, dets: seq<Detection>, order: seq<Candidate>)
    requires ValidState(s) && IsOrder(s, dets, order)
    ensures var (s', out) := Updated(s, dets, order);
            |out| == |dets| && forall i, t :: 0 <= i < |out| && t in s'.tracks && t.id == out[i].trackId ==>
                                                t.bbox == dets[i].bbox && t.age == 0
  {
    hide Updated, IsOrder, ValidState;
    var (s', out) := Updated(s, dets, order);
    ReportIsFresh(s, dets, order);
    TracksFollowReport(s, dets, order);
    forall i, t | 0 <= i < |out| && t in s'.tracks && t.id == out[i].trackId
      ensures t.bbox == dets[i].bbox && t.age == 0
    {
      assert TrackComesFrom(s, out, t) && Reported(out, t.id);
      var j :| 0 <= j < |out| && out[j].trackId == t.id && out[j].detection.bbox == t.bbox;
    }
  }

  /** An id that goes on is that of a track the detection overlaps at the threshold or above. */
  predicate GoesOn(s: State, dets: seq<Detection>, out: seq<TrackedDetection>, d: nat, t: nat)
    requires d < |dets| == |out| && t < |s.tracks|
  {
    s.tracks[t].id == out[d].trackId && PairIou(s, dets, t, d) >= s.threshold
  }

  /** A pair at the threshold or above: the detection goes on as a track, or the track as a detection, that overlaps it
      at least as much. */
  ghost predicate PairIsServed(s: State, dets: seq<Detection>, out: seq<TrackedDetection>, t: nat, d: nat)
    requires d < |dets| == |out| && t < |s.tracks|
  {
    || (exists k :: 0 <= k < |s.tracks| && GoesOn(s, dets, out, d, k) && PairIou(s, dets, k, d) >= PairIou(s, dets, t, d))
    || (exists e :: 0 <= e < |dets| && GoesOn(s, dets, out, e, t) && PairIou(s, dets, t, e) >= PairIou(s, dets, t, d))
  }

  /** What the report says of the tracks there were, without the matching: an old id goes on only at the threshold or
      above, and every such pair is served. */
  lemma ReportIsStable(s: State, dets: seq<Detection>, order: seq<Candidate>)
    requires IsOrder(s, dets, order)
    ensures var out := Updated(s, dets, order).1;
            && |out| == |dets|
            && (forall d :: 0 <= d < |out| && !out[d].isNew ==>
                              exists t :: 0 <= t < |s.tracks| && GoesOn(s, dets, out, d, t))
            && (forall t, d :: 0 <= t < |s.tracks| && 0 <= d < |dets| && PairIou(s, dets, t, d) >= s.threshold ==>
                                 PairIsServed(s, dets, out, t, d))
  {
    hide Greedy, Iou, Live, Born, IsOrder;
    var m := Greedy(order);
    var out := Updated(s, dets, order).1;
    forall d | 0 <= d < |out| && !out[d].isNew
      ensures exists t :: 0 <= t < |s.tracks| && GoesOn(s, dets, out, d, t)
    {
      var c := ChosenFor(s, dets, order, d);
      assert GoesOn(s, dets, out, d, c.track);
    }
    forall t, d | 0 <= t < |s.tracks| && 0 <= d < |dets| && PairIou(s, dets, t, d) >= s.threshold
      ensures PairIsServed(s, dets, out, t, d)
    {
      var k := Blocker(s, dets, order, Candidate(t, d, PairIou(s, dets, t, d)));
      assert GoesOn(s, dets, out, k.det, k.track);
    }
  }

  /** The qualifying pair a matched detection was chosen in. */
  lemma ChosenFor(s: State, dets: seq<Detection>, order: seq<Candidate>, d: nat) returns (c: Candidate)
    requires IsOrder(s, dets, order) && d in Greedy(order).byDet
    ensures Qualifies(s, dets, c) && c.det == d && c.track == Greedy(order).byDet[d]
  {
    hide Greedy, Iou;
    GreedyPairs(order);
    c :| c in order && c.det == d && c.track == Greedy(order).byDet[d];
  }

  lemma ReportedHasTrack(s: State, dets: seq<Detection>, order: seq<Candidate>, d: nat)
    requires ValidState(s) && IsOrder(s, dets, order) && d < |dets|
    ensures HasTrack(Updated(s, dets, order).0.tracks, IdOf(s, Greedy(order), d))
  {
    hide Greedy, IsOrder, Live, Born, ValidState, Iou;
    var m := Greedy(order);
    var refreshed := RefreshedAll(s.tracks, dets, m);
    var old', new' := Live(refreshed, s.maxAge), Born(dets, m, s.nextId, |dets|);
    MatchedDetsExist(s, dets, order);
    LiveMembers(refreshed, s.maxAge);
    if d in m.byDet {
      var t := refreshed[m.byDet[d]];
      assert t.age == 0 && t in old';
      InTracks(old' + new', t);
    } else {
      var k := BornFor(dets, m, s.nextId, |dets|, d);
      InTracks(old' + new', new'[k]);
    }
  }

  // ----- Runs of frames -----

  datatype Setup = Setup(maxAge: nat, threshold: real)

  datatype Frame = Frame(dets: seq<Detection>, order: seq<Candidate>)

  function After(c: Setup, run: seq<Frame>): State {
    if run == [] then State([], 1, c.maxAge, c.threshold)
    else Updated(After(c, run[..|run| - 1]), run[|run| - 1].dets, run[|run| - 1].order).0
  }

  /** What each frame of a run reported. */
  function Outputs(c: Setup, run: seq<Frame>): (outs: seq<seq<TrackedDetection>>)
    ensures |outs| == |run|
  {
    if run == [] then []
    else Outputs(c, run[..|run| - 1])
         + [Updated(After(c, run[..|run| - 1]), run[|run| - 1].dets, run[|run| - 1].order).1]
  }

  /** In every frame the candidates came sorted, ties in any order. */
  ghost predicate ValidRun(c: Setup, run: seq<Frame>) {
    run == [] || (ValidRun(c, run[..|run| - 1])
                  && IsOrder(After(c, run[..|run| - 1]), run[|run| - 1].dets, run[|run| - 1].order))
  }

  /** In how many frames an id was reported. */
  function Appearances(outs: seq<seq<TrackedDetection>>, id: nat): nat {
    if outs == [] then 0
    else Appearances(outs[..|outs| - 1], id) + if Reported(outs[|outs| - 1], id) then 1 else 0
  }

  /** An id was reported in frame g and in no later frame. */
  predicate LastSeen(outs: seq<seq<TrackedDetection>>, id: nat, g: int) {
    0 <= g < |outs| && Reported(outs[g], id) && forall h :: g < h < |outs| ==> !Reported(outs[h], id)
  }

  /** A track's age counts the frames since it was last reported, its box is the one reported then, and its visibility
      counts the frames it was reported in. */
  predicate Remembers(outs: seq<seq<TrackedDetection>>, t: Track) {
    && LastSeen(outs, t.id, |outs| - 1 - t.age) && t.visible == Appearances(outs, t.id)
    && ReportedBox(outs[|outs| - 1 - t.age], t.id, t.bbox)
  }

  ghost predicate TracksRemember(s: State, outs: seq<seq<TrackedDetection>>) {
    forall t :: t in s.tracks ==> Remembers(outs, t)
  }

  /** Every id reported at most max_age frames ago has a track. */
  ghost predicate RecentHaveTracks(s: State, outs: seq<seq<TrackedDetection>>) {
    forall g, id :: 0 <= g < |outs| && |outs| - 1 - g <= s.maxAge && Reported(outs[g], id) ==> HasTrack(s.tracks, id)
  }

  predicate EverReported(outs: seq<seq<TrackedDetection>>, id: int) {
    exists g :: 0 <= g < |outs| && Reported(outs[g], id)
  }

  /** The ids below the next one are those ever reported. */
  ghost predicate IdsAreUsed(s: State, outs: seq<seq<TrackedDetection>>) {
    forall id {:trigger EverReported(outs, id)} :: EverReported(outs, id) <==> 1 <= id < s.nextId
  }

  ghost predicate RunInvariant(s: State, outs: seq<seq<TrackedDetection>>) {
    ValidState(s) && TracksRemember(s, outs) && RecentHaveTracks(s, outs) && IdsAreUsed(s, outs)
  }

  lemma AppearancesSnoc(outs: seq<seq<TrackedDetection>>, out: seq<TrackedDetection>, id: nat)
    ensures Appearances(outs + [out], id) == Appearances(outs, id) + if Reported(out, id) then 1 else 0
  {
    assert (outs + [out])[..|outs|] == outs;
  }

  lemma {:induction false} NeverAppeared(outs: seq<seq<TrackedDetection>>, id: nat)
    requires forall g :: 0 <= g < |outs| ==> !Reported(outs[g], id)
    ensures Appearances(outs, id) == 0
  {
    if outs != [] {
      NeverAppeared(outs[..|outs| - 1], id);
    }
  }

  lemma LastSeenSnoc(outs: seq<seq<TrackedDetection>>, out: seq<TrackedDetection>, id: nat, g: int)
    ensures Reported(out, id) ==> LastSeen(outs + [out], id, |outs|)
    ensures !Reported(out, id) && LastSeen(outs, id, g) ==> LastSeen(outs + [out], id, g)
  {
    hide Reported;
  }

  lemma FrameRemembers(s: State, outs: seq<seq<TrackedDetection>>, dets: seq<Detection>, s': State,
                       out: seq<TrackedDetection>)
    requires RunInvariant(s, outs) && FreshReport(s, dets, s', out) && TracksFollow(s, out, s')
    ensures TracksRemember(s', outs + [out])
  {
    hide Reported, ValidState, Remembers, HasTrack, RecentHaveTracks, FreshReport, TrackComesFrom, IdsAreUsed;
    forall t' | t' in s'.tracks
      ensures Remembers(outs + [out], t')
    {
      TrackRemembers(s, outs, out, t');
    }
  }

  lemma TrackRemembers(s: State, outs: seq<seq<TrackedDetection>>, out: seq<TrackedDetection>, t': Track)
    requires TracksRemember(s, outs) && IdsAreUsed(s, outs) && TrackComesFrom(s, out, t')
    ensures Remembers(outs + [out], t')
  {
    hide Reported, ReportedBox, LastSeen, Appearances, IdsAreUsed, TracksRemember;
    AppearancesSnoc(outs, out, t'.id);
    if t'.age == 0 {
      LastSeenSnoc(outs, out, t'.id, 0);
      assert (outs + [out])[|outs|] == out;
      if t'.visible == 1 && t'.id >= s.nextId {
        FirstAppearance(s, outs, t'.id);
      } else {
        var t :| t in s.tracks && t'.id == t.id && t'.visible == t.visible + 1;
        Remembered(s, outs, t);
      }
    } else {
      var t :| t in s.tracks && t' == t.(age := t.age + 1);
      Remembered(s, outs, t);
      LastSeenSnoc(outs, out, t'.id, |outs| - 1 - t.age);
      InRange(outs, t.id, |outs| - 1 - t.age);
    }
  }

  lemma InRange(outs: seq<seq<TrackedDetection>>, id: nat, g: int)
    requires LastSeen(outs, id, g)
    ensures 0 <= g < |outs|
  {
  }

  lemma Remembered(s: State, outs: seq<seq<TrackedDetection>>, t: Track)
    requires TracksRemember(s, outs) && t in s.tracks
    ensures Remembers(outs, t)
  {
  }

  lemma FirstAppearance(s: State, outs: seq<seq<TrackedDetection>>, id: nat)
    requires IdsAreUsed(s, outs) && id >= s.nextId
    ensures Appearances(outs, id) == 0
  {
    hide Reported, Appearances;
    assert !EverReported(outs, id);
    NeverAppeared(outs, id);
  }

  lemma FrameKeepsRecent(s: State, outs: seq<seq<TrackedDetection>>, s': State, out: seq<TrackedDetection>)
    requires RunInvariant(s, outs) && TracksFollow(s, out, s') && s'.maxAge == s.maxAge
    ensures RecentHaveTracks(s', outs + [out])
  {
    hide ValidState, IdsAreUsed, Appearances;
    forall g, id | 0 <= g <= |outs| && |outs| - g <= s'.maxAge && Reported((outs + [out])[g], id)
      ensures HasTrack(s'.tracks, id)
    {
      if g == |outs| {
        var i :| 0 <= i < |out| && out[i].trackId == id;
      } else {
        assert Reported(outs[g], id) && HasTrack(s.tracks, id);
        var i :| 0 <= i < |s.tracks| && s.tracks[i].id == id;
        var t := s.tracks[i];
        assert Remembers(outs, t);
        assert g <= |outs| - 1 - t.age;
        assert t.age < s.maxAge;
      }
    }
  }

  lemma FrameUsesIds(s: State, outs: seq<seq<TrackedDetection>>, dets: seq<Detection>, s': State,
                     out: seq<TrackedDetection>)
    requires RunInvariant(s, outs) && FreshReport(s, dets, s', out) && s'.nextId >= s.nextId
    ensures IdsAreUsed(s', outs + [out])
  {
    hide TracksRemember, RecentHaveTracks, Appearances;
    var outs' := outs + [out];
    forall id
      ensures EverReported(outs', id) <==> 1 <= id < s'.nextId
    {
      assert EverReported(outs', id) <==> EverReported(outs, id) || Reported(out, id) by {
        EverReportedSnoc(outs, out, id);
      }
      if Reported(out, id) {
        var i :| 0 <= i < |out| && out[i].trackId == id;
        if !out[i].isNew {
          TrackIdsAreOld(s, id);
        }
      }
    }
  }

  lemma EverReportedSnoc(outs: seq<seq<TrackedDetection>>, out: seq<TrackedDetection>, id: int)
    ensures EverReported(outs + [out], id) <==> EverReported(outs, id) || Reported(out, id)
  {
    hide Reported;
    if EverReported(outs, id) {
      var g :| 0 <= g < |outs| && Reported(outs[g], id);
      assert (outs + [out])[g] == outs[g];
    }
    assert (outs + [out])[|outs|] == out;
  }

  lemma {:induction false} RunsKeepInvariant(c: Setup, run: seq<Frame>)
    requires ValidRun(c, run)
    ensures RunInvariant(After(c, run), Outputs(c, run)) && After(c, run).maxAge == c.maxAge
    decreases |run|
  {
    hide Updated, IsOrder, RunInvariant, FreshReport, TracksFollow;
    if run == [] {
      StartHolds(c);
    } else {
      var front, f := run[..|run| - 1], run[|run| - 1];
      RunsKeepInvariant(c, front);
      FrameKeepsInvariant(After(c, front), Outputs(c, front), f.dets, f.order);
    }
  }

  lemma StartHolds(c: Setup)
    ensures RunInvariant(State([], 1, c.maxAge, c.threshold), [])
  {
  }

  lemma FrameKeepsInvariant(s: State, outs: seq<seq<TrackedDetection>>, dets: seq<Detection>, order: seq<Candidate>)
    requires RunInvariant(s, outs) && IsOrder(s, dets, order)
    ensures var (s', out) := Updated(s, dets, order); RunInvariant(s', outs + [out]) && s'.maxAge == s.maxAge
    ensures FreshReport(s, dets, Updated(s, dets, order).0, Updated(s, dets, order).1)
  {
    hide ValidState, IsOrder, TracksRemember, RecentHaveTracks, IdsAreUsed, FreshReport, TracksFollow, Greedy, Live, Born;
    var (s', out) := Updated(s, dets, order);
    ReportIsFresh(s, dets, order);
    TracksFollowReport(s, dets, order);
    NextStateIsValid(s, dets, order);
    FrameRemembers(s, outs, dets, s', out);
    FrameKeepsRecent(s, outs, s', out);
    FrameUsesIds(s, outs, dets, s', out);
  }

  // ----- Main results over runs -----

  /** A track is live after a run exactly when its id was reported within the last max_age + 1 frames. */
  lemma LiveIffRecent(c: Setup, run: seq<Frame>, id: nat)
    requires ValidRun(c, run)
    ensures HasTrack(After(c, run).tracks, id) <==>
            exists g :: 0 <= g < |run| && |run| - 1 - g <= c.maxAge && Reported(Outputs(c, run)[g], id)
  {
    hide ValidRun, After, Outputs, Appearances;
    RunsKeepInvariant(c, run);
    if HasTrack(After(c, run).tracks, id) {
      var i :| 0 <= i < |After(c, run).tracks| && After(c, run).tracks[i].id == id;
      var t := After(c, run).tracks[i];
      assert t in After(c, run).tracks && LastSeen(Outputs(c, run), id, |run| - 1 - t.age);
    }
  }

  /** A run up to a frame. */
  lemma {:induction false} RunsHavePrefixes(c: Setup, run: seq<Frame>, n: nat)
    requires ValidRun(c, run) && n <= |run|
    ensures ValidRun(c, run[..n]) && Outputs(c, run[..n]) == Outputs(c, run)[..n]
    decreases |run|
  {
    hide Updated, IsOrder, After;
    if n == |run| {
      assert run[..n] == run;
    } else {
      RunsHavePrefixes(c, run[..|run| - 1], n);
      assert run[..|run| - 1][..n] == run[..n];
    }
  }

  /** What is reported in a frame, given the reports before it: the detections in order under pairwise distinct ids, new
      exactly when no earlier frame reported them. */
  ghost predicate ReportedRight(dets: seq<Detection>, earlier: seq<seq<TrackedDetection>>, out: seq<TrackedDetection>) {
    && |out| == |dets|
    && (forall i :: 0 <= i < |out| ==> out[i].detection == dets[i])
    && (forall i, j :: 0 <= i < j < |out| ==> out[i].trackId != out[j].trackId)
    && (forall i :: 0 <= i < |out| ==> (out[i].isNew <==> !EverReported(earlier, out[i].trackId)))
  }

  /** In every frame of a run each id is called new exactly when no earlier frame reported it; so each id is new once, at
      its first appearance, and never given out again. */
  lemma NewExactlyOnce(c: Setup, run: seq<Frame>, n: nat)
    requires ValidRun(c, run) && n < |run|
    ensures ReportedRight(run[n].dets, Outputs(c, run)[..n], Outputs(c, run)[n])
  {
    hide ValidRun, ReportedRight;
    RunsHavePrefixes(c, run, n + 1);
    LastFrameIsRight(c, run[..n + 1]);
    assert Outputs(c, run)[..n + 1][..n] == Outputs(c, run)[..n];
  }

  lemma LastFrameIsRight(c: Setup, run: seq<Frame>)
    requires ValidRun(c, run) && run != []
    ensures var n := |run| - 1; ReportedRight(run[n].dets, Outputs(c, run)[..n], Outputs(c, run)[n])
  {
    hide Updated, IsOrder, ValidState, TracksRemember, RecentHaveTracks, EverReported, Reported;
    var front, f := run[..|run| - 1], run[|run| - 1];
    RunsKeepInvariant(c, front);
    var s, outs := After(c, front), Outputs(c, front);
    FrameKeepsInvariant(s, outs, f.dets, f.order);
    var out := Updated(s, f.dets, f.order).1;
    assert Outputs(c, run) == outs + [out] && Outputs(c, run)[..|outs|] == outs;
    forall i | 0 <= i < |out|
      ensures out[i].isNew <==> !EverReported(outs, out[i].trackId)
    {
      if !out[i].isNew {
        TrackIdsAreOld(s, out[i].trackId);
      }
    }
  }

  lemma TrackIdsAreOld(s: State, id: int)
    requires ValidState(s) && HasTrack(s.tracks, id)
    ensures 1 <= id < s.nextId
  {
    var k :| 0 <= k < |s.tracks| && s.tracks[k].id == id;
    assert s.tracks[k] in s.tracks;
  }

  /** Between two consecutive appearances, in frames g and n of a run, an id is absent for at most max_age frames. */
  lemma NeverAbsentLong(c: Setup, run: seq<Frame>, id: nat, g: nat, n: nat)
    requires ValidRun(c, run) && g < n < |run|
    requires Reported(Outputs(c, run)[n], id) && LastSeen(Outputs(c, run)[..n], id, g)
    ensures n - g - 1 <= c.maxAge
  {
    hide ValidRun, Reported, LastSeen;
    RunsHavePrefixes(c, run, n + 1);
    assert Outputs(c, run)[..n + 1][..n] == Outputs(c, run)[..n];
    LastAbsenceIsShort(c, run[..n + 1], id, g);
  }

  lemma LastAbsenceIsShort(c: Setup, run: seq<Frame>, id: nat, g: nat)
    requires ValidRun(c, run) && g < |run| - 1
    requires Reported(Outputs(c, run)[|run| - 1], id) && LastSeen(Outputs(c, run)[..|run| - 1], id, g)
    ensures |run| - 1 - g - 1 <= c.maxAge
  {
    hide Updated, IsOrder, ValidState, RecentHaveTracks, Appearances;
    var front, f := run[..|run| - 1], run[|run| - 1];
    RunsKeepInvariant(c, front);
    var s, outs := After(c, front), Outputs(c, front);
    FrameKeepsInvariant(s, outs, f.dets, f.order);
    var out := Updated(s, f.dets, f.order).1;
    assert Outputs(c, run) == outs + [out] && Outputs(c, run)[..|outs|] == outs;
    var i :| 0 <= i < |out| && out[i].trackId == id;
    assert Reported(outs[g], id);
    assert EverReported(outs, id) && !out[i].isNew;
    LiveIffRecent(c, front, id);
    var h :| 0 <= h < |front| && |front| - 1 - h <= c.maxAge && Reported(outs[h], id);
    assert h <= g;
  }

  /** Over every run each live track carries the box of the detection last reported under its id. */
  lemma LiveBoxesAreTheLastReported(c: Setup, run: seq<Frame>, t: Track) returns (g: nat, i: nat)
    requires ValidRun(c, run) && t in After(c, run).tracks
    ensures g < |run| && g == |run| - 1 - t.age && LastSeen(Outputs(c, run), t.id, g)
    ensures i < |run[g].dets| == |Outputs(c, run)[g]| && Outputs(c, run)[g][i].trackId == t.id
    ensures t.bbox == run[g].dets[i].bbox
  {
    hide ValidRun, After, Outputs, LastSeen, EverReported;
    RunsKeepInvariant(c, run);
    Remembered(After(c, run), Outputs(c, run), t);
    InRange(Outputs(c, run), t.id, |run| - 1 - t.age);
    g := |run| - 1 - t.age;
    NewExactlyOnce(c, run, g);
    i :| 0 <= i < |Outputs(c, run)[g]| && Outputs(c, run)[g][i].trackId == t.id
         && Outputs(c, run)[g][i].detection.bbox == t.bbox;
  }

  /** Live ids are pairwise distinct and below the next one, and every id below it has been reported. */
  lemma IdsStayDistinct(c: Setup, run: seq<Frame>)
    requires ValidRun(c, run)
    ensures DistinctIds(After(c, run).tracks)
    ensures forall t :: t in After(c, run).tracks ==>
              1 <= t.id < After(c, run).nextId && t.visible == Appearances(Outputs(c, run), t.id)
    ensures forall id {:trigger EverReported(Outputs(c, run), id)} ::
              EverReported(Outputs(c, run), id) <==> 1 <= id < After(c, run).nextId
  {
    hide ValidRun, After, Outputs, Reported, DistinctIds;
    RunsKeepInvariant(c, run);
  }
}
