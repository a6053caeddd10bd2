/** The bouncer's per-target ring buffers and the queries that replay them. */
module ReplayBuffer {
  import opened Widths
  import opened Octets
  import opened Timestamps
  import opened Messages

  datatype Entry = Entry(timestamp: Bytes, message: Message)

  const DEFAULT_MAX: nat := 5000

  /** The last n items of a sequence, or all of it. */
  function LastOf<T>(s: seq<T>, n: nat): seq<T> {
    if |s| <= n then s else s[|s| - n..]
  }

  /** How many entries a buffer of a given capacity keeps: push makes room before it adds, so never less than one. */
  function Kept(max: nat): nat {
    if max == 0 then 1 else max
  }

  /** The entries not before the first whose timestamp is at least a given text. */
  function FirstAtLeast(entries: seq<Entry>, since: Bytes): (i: nat)
    ensures i <= |entries|
    ensures forall k :: 0 <= k < i ==> LexLess(entries[k].timestamp, since)
    ensures i < |entries| ==> !LexLess(entries[i].timestamp, since)
  {
    if entries == [] || !LexLess(entries[0].timestamp, since) then 0
    else 1 + FirstAtLeast(entries[1..], since)
  }

  /** The query: from the first entry not before a given text on. */
  function From(entries: seq<Entry>, since: Bytes): seq<Entry> {
    entries[FirstAtLeast(entries, since)..]
  }

  /** A push evicts the oldest entry when the buffer is full, then adds. */
  function Pushed(entries: seq<Entry>, max: nat, e: Entry): seq<Entry> {
    (if |entries| >= max && entries != [] then entries[1..] else entries) + [e]
  }

  class MessageBuffer {
    var entries: seq<Entry>
    const max: nat

    constructor ()
      ensures entries == [] && max == DEFAULT_MAX
    {
      entries := [];
      max := DEFAULT_MAX;
    }

    constructor WithCapacity(capacity: nat)
      ensures entries == [] && max == capacity
    {
      entries := [];
      max := capacity;
    }

    method Push(timestamp: Bytes, message: Message)
      modifies this
      ensures entries == Pushed(old(entries), max, Entry(timestamp, message))
    {
      if |entries| >= max {
        if entries != [] {
          entries := entries[1..];
        }
      }
      entries := entries + [Entry(timestamp, message)];
    }

    function Since(since: Bytes): seq<Entry>
      reads this
    {
      From(entries, since)
    }

    function LastN(n: nat): seq<Entry>
      reads this
    {
      LastOf(entries, n)
    }
  }

  // ----- What a buffer holds -----

  function AfterPushes(max: nat, pushes: seq<Entry>): seq<Entry> {
    if pushes == [] then []
    else Pushed(AfterPushes(max, pushes[..|pushes| - 1]), max, pushes[|pushes| - 1])
  }

  /** After any run of pushes a buffer holds exactly the last of them: as many as its capacity, but at least one. */
  lemma {:induction false} BufferHoldsTheLast(max: nat, pushes: seq<Entry>)
    ensures AfterPushes(max, pushes) == LastOf(pushes, Kept(max))
  {
    if pushes != [] {
      var n := |pushes| - 1;
      BufferHoldsTheLast(max, pushes[..n]);
      assert pushes == pushes[..n] + [pushes[n]];
      LastOneMore(pushes[..n], pushes[n], Kept(max));
    }
  }

  /** Evicting the oldest of the last n when there are n, then adding, gives the last n again. */
  lemma LastOneMore(s: seq<Entry>, e: Entry, n: nat)
    requires n >= 1
    ensures LastOf(s + [e], n) == (if |LastOf(s, n)| >= n then LastOf(s, n)[1..] else LastOf(s, n)) + [e]
  {
    if |s| >= n {
      assert (s + [e])[|s| + 1 - n..] == s[|s| - n..][1..] + [e];
    }
  }

  /** The last n entries held are the last pushed, as many as asked for and held. */
  lemma LastHeldAreLastPushed(max: nat, pushes: seq<Entry>, n: nat)
    ensures LastOf(AfterPushes(max, pushes), n) == LastOf(pushes, if n <= Kept(max) then n else Kept(max))
  {
    BufferHoldsTheLast(max, pushes);
  }

  // ----- Queries -----

  function FilterAtLeast(entries: seq<Entry>, since: Bytes): seq<Entry> {
    if entries == [] then []
    else (if LexLess(entries[0].timestamp, since) then [] else [entries[0]]) + FilterAtLeast(entries[1..], since)
  }

  ghost predicate SortedByTime(entries: seq<Entry>) {
    forall i, j :: 0 <= i < j < |entries| ==> !LexLess(entries[j].timestamp, entries[i].timestamp)
  }

  lemma {:induction false} AllAtLeast(entries: seq<Entry>, since: Bytes)
    requires forall k :: 0 <= k < |entries| ==> !LexLess(entries[k].timestamp, since)
    ensures FilterAtLeast(entries, since) == entries
  {
    if entries != [] {
      AllAtLeast(entries[1..], since);
    }
  }

  lemma LaterIsAtLeast(since: Bytes, first: Bytes, later: Bytes)
    requires !LexLess(first, since) && !LexLess(later, first)
    ensures !LexLess(later, since)
  {
    LexLessIsTotal(first, since);
    if LexLess(later, since) && first != since {
      LexLessIsTransitive(later, since, first);
    }
  }

  lemma {:induction false} SortedSuffixIsFilter(entries: seq<Entry>, since: Bytes)
    requires SortedByTime(entries)
    ensures From(entries, since) == FilterAtLeast(entries, since)
  {
    if entries != [] {
      if LexLess(entries[0].timestamp, since) {
        SortedSuffixIsFilter(entries[1..], since);
      } else {
        forall k | 0 <= k < |entries|
          ensures !LexLess(entries[k].timestamp, since)
        {
          if k > 0 {
            LaterIsAtLeast(since, entries[0].timestamp, entries[k].timestamp);
          }
        }
        AllAtLeast(entries, since);
      }
    }
  }

  lemma {:induction false} FilteredAreAtLeast(entries: seq<Entry>, since: Bytes)
    ensures forall k :: 0 <= k < |FilterAtLeast(entries, since)| ==>
              !LexLess(FilterAtLeast(entries, since)[k].timestamp, since)
  {
    if entries != [] {
      FilteredAreAtLeast(entries[1..], since);
    }
  }

  /** The query by first position is the filter for every query text if and only if the entries are in time order. */
  lemma SinceIsFilterIffSorted(entries: seq<Entry>)
    ensures (forall since {:trigger FilterAtLeast(entries, since)} ::
               From(entries, since) == FilterAtLeast(entries, since))
            <==> SortedByTime(entries)
  {
    if SortedByTime(entries) {
      forall since
        ensures From(entries, since) == FilterAtLeast(entries, since)
      {
        SortedSuffixIsFilter(entries, since);
      }
    } else {
      var i, j :| 0 <= i < j < |entries| && LexLess(entries[j].timestamp, entries[i].timestamp);
      var since := entries[i].timestamp;
      var first := FirstAtLeast(entries, since);
      LexLessIsStrict(since);
      assert first <= i;
      assert entries[first..][j - first] == entries[j];
      FilteredAreAtLeast(entries, since);
      assert entries[first..] != FilterAtLeast(entries, since);
    }
  }

  // ----- The bouncer: timestamps come from the clock -----

  /** A message and the second it arrived in. */
  datatype Arrival = Arrival(secs: u64, message: Message)

  function Stamp(a: Arrival): Entry {
    Entry(FormatTimestamp(a.secs), a.message)
  }

  function Stamped(arrivals: seq<Arrival>): seq<Entry> {
    seq(|arrivals|, i requires 0 <= i < |arrivals| => Stamp(arrivals[i]))
  }

  /** A clock that never goes back, before the year 10000. */
  ghost predicate OnTime(arrivals: seq<Arrival>) {
    && (forall k :: 0 <= k < |arrivals| ==> arrivals[k].secs < END_OF_9999)
    && (forall i, j :: 0 <= i < j < |arrivals| ==> arrivals[i].secs <= arrivals[j].secs)
  }

  function ArrivedSince(arrivals: seq<Arrival>, secs: u64): seq<Arrival> {
    if arrivals == [] then []
    else (if arrivals[0].secs < secs then [] else [arrivals[0]]) + ArrivedSince(arrivals[1..], secs)
  }

  lemma StampedIsSorted(arrivals: seq<Arrival>)
    requires OnTime(arrivals)
    ensures SortedByTime(Stamped(arrivals))
  {
    hide FormatTimestamp, LexLess;
    forall i, j | 0 <= i < j < |arrivals|
      ensures !LexLess(Stamped(arrivals)[j].timestamp, Stamped(arrivals)[i].timestamp)
    {
      TimestampsSort(arrivals[j].secs, arrivals[i].secs);
    }
  }

  lemma {:induction false} FilterIsByClock(arrivals: seq<Arrival>, secs: u64)
    requires OnTime(arrivals) && secs < END_OF_9999
    ensures FilterAtLeast(Stamped(arrivals), FormatTimestamp(secs)) == Stamped(ArrivedSince(arrivals, secs))
    decreases |arrivals|
  {
    hide FormatTimestamp, LexLess;
    if arrivals != [] {
      var rest := arrivals[1..];
      TimestampsSort(arrivals[0].secs, secs);
      FilterIsByClock(rest, secs);
      assert Stamped(arrivals)[1..] == Stamped(rest);
      assert Stamped(arrivals)[0] == Stamp(arrivals[0]);
      assert Stamped([arrivals[0]] + ArrivedSince(rest, secs)) == [Stamp(arrivals[0])] + Stamped(ArrivedSince(rest, secs));
      assert [] + ArrivedSince(rest, secs) == ArrivedSince(rest, secs);
      var later := FilterAtLeast(Stamped(rest), FormatTimestamp(secs));
      assert [] + later == later;
    }
  }

  lemma LastOnTime(arrivals: seq<Arrival>, n: nat)
    requires OnTime(arrivals)
    ensures OnTime(LastOf(arrivals, n)) && LastOf(Stamped(arrivals), n) == Stamped(LastOf(arrivals, n))
  {
    hide FormatTimestamp;
  }

  /** From the clock to the query: after any run of timestamped pushes, asking for what came since a second returns
      exactly the messages, among the last the buffer keeps, that arrived in that second or later, in order. */
  lemma ReplaySince(max: nat, arrivals: seq<Arrival>, secs: u64)
    requires OnTime(arrivals) && secs < END_OF_9999
    ensures var held := AfterPushes(max, Stamped(arrivals));
            From(held, FormatTimestamp(secs)) == Stamped(ArrivedSince(LastOf(arrivals, Kept(max)), secs))
  {
    hide FormatTimestamp, LexLess, OnTime;
    var kept := LastOf(arrivals, Kept(max));
    BufferHoldsTheLast(max, Stamped(arrivals));
    LastOnTime(arrivals, Kept(max));
    StampedIsSorted(kept);
    SortedSuffixIsFilter(Stamped(kept), FormatTimestamp(secs));
    FilterIsByClock(kept, secs);
  }

  // ----- One buffer per target -----

  function BufferedFor(view: map<Bytes, seq<Entry>>, target: Bytes, e: Entry): map<Bytes, seq<Entry>> {
    view[target := Pushed(if target in view then view[target] else [], DEFAULT_MAX, e)]
  }

  function Buffered(view: map<Bytes, seq<Entry>>, targets: seq<Bytes>, e: Entry): map<Bytes, seq<Entry>> {
    if targets == [] then view
    else BufferedFor(Buffered(view, targets[..|targets| - 1], e), targets[|targets| - 1], e)
  }

  class UpstreamState {
    var buffers: map<Bytes, MessageBuffer>

    ghost predicate Valid()
      reads this, buffers.Values
    {
      && (forall t :: t in buffers ==> buffers[t].max == DEFAULT_MAX)
      && (forall t, u :: t in buffers && u in buffers && t != u ==> buffers[t] != buffers[u])
    }

    ghost function View(): map<Bytes, seq<Entry>>
      reads this, buffers.Values
    {
      map t | t in buffers :: buffers[t].entries
    }

    constructor ()
      ensures Valid() && View() == map[]
    {
      buffers := map[];
    }

    method BufferFor(target: Bytes, e: Entry)
      requires Valid()
      modifies this, buffers.Values
      ensures Valid() && View() == BufferedFor(old(View()), target, e)
      ensures fresh(buffers.Values - old(buffers.Values))
    {
      if target !in buffers {
        var b := new MessageBuffer();
        buffers := buffers[target := b];
      }
      buffers[target].Push(e.timestamp, e.message);
    }

    method BufferMessage(now: Bytes, targets: seq<Bytes>, message: Message)
      requires Valid()
      modifies this, buffers.Values
      ensures Valid() && View() == Buffered(old(View()), targets, Entry(now, message))
      ensures fresh(buffers.Values - old(buffers.Values))
    {
      var i := 0;
      while i < |targets|
        invariant i <= |targets|
        invariant Valid() && View() == Buffered(old(View()), targets[..i], Entry(now, message))
        invariant fresh(buffers.Values - old(buffers.Values))
      {
        assert targets[..i + 1][..i] == targets[..i];
        BufferFor(targets[i], Entry(now, message));
        i := i + 1;
      }
      assert targets[..i] == targets;
    }
  }

  // ----- Runs of the bouncer -----

  /** A message for some targets, and the second it arrived in. */
  datatype Incoming = Incoming(secs: u64, targets: seq<Bytes>, message: Message)

  function ViewAfter(run: seq<Incoming>): map<Bytes, seq<Entry>> {
    if run == [] then map[]
    else
      var last := run[|run| - 1];
      Buffered(ViewAfter(run[..|run| - 1]), last.targets, Entry(FormatTimestamp(last.secs), last.message))
  }

  /** One copy of an arrival for every time a target is named. */
  function Copies(targets: seq<Bytes>, target: Bytes, a: Arrival): seq<Arrival> {
    if targets == [] then []
    else Copies(targets[..|targets| - 1], target, a) + if targets[|targets| - 1] == target then [a] else []
  }

  /** What has been sent to one target. */
  function HistoryOf(run: seq<Incoming>, target: Bytes): seq<Arrival> {
    if run == [] then []
    else
      var last := run[|run| - 1];
      HistoryOf(run[..|run| - 1], target) + Copies(last.targets, target, Arrival(last.secs, last.message))
  }

  /** The buffer of a target is what pushing its history gives, and exists as soon as there is one. */
  predicate Tracks(view: map<Bytes, seq<Entry>>, target: Bytes, history: seq<Arrival>) {
    && (target in view <==> history != [])
    && (target in view ==> view[target] == AfterPushes(DEFAULT_MAX, Stamped(history)))
  }

  lemma TrackOne(view: map<Bytes, seq<Entry>>, named: Bytes, target: Bytes, history: seq<Arrival>, a: Arrival)
    requires Tracks(view, target, history)
    ensures Tracks(BufferedFor(view, named, Stamp(a)), target, history + if named == target then [a] else [])
  {
    hide FormatTimestamp, Pushed;
    if named == target {
      var stamped := Stamped(history + [a]);
      assert stamped[..|stamped| - 1] == Stamped(history);
      assert stamped[|stamped| - 1] == Stamp(a);
      assert AfterPushes(DEFAULT_MAX, stamped)
          == Pushed(AfterPushes(DEFAULT_MAX, Stamped(history)), DEFAULT_MAX, Stamp(a));
      assert history == [] ==> Stamped(history) == [] && AfterPushes(DEFAULT_MAX, Stamped(history)) == [];
    } else {
      assert history + [] == history;
    }
  }

  lemma {:induction false} TrackAll(view: map<Bytes, seq<Entry>>, targets: seq<Bytes>, target: Bytes,
                                    history: seq<Arrival>, a: Arrival)
    requires Tracks(view, target, history)
    ensures Tracks(Buffered(view, targets, Stamp(a)), target, history + Copies(targets, target, a))
    decreases |targets|
  {
    hide Tracks, FormatTimestamp;
    if targets == [] {
      assert history + [] == history;
    } else {
      var front, last := targets[..|targets| - 1], targets[|targets| - 1];
      TrackAll(view, front, target, history, a);
      TrackOne(Buffered(view, front, Stamp(a)), last, target, history + Copies(front, target, a), a);
      var one := if last == target then [a] else [];
      assert (history + Copies(front, target, a)) + one == history + (Copies(front, target, a) + one);
    }
  }

  lemma {:induction false} EveryTargetIsTracked(run: seq<Incoming>, target: Bytes)
    ensures Tracks(ViewAfter(run), target, HistoryOf(run, target))
    decreases |run|
  {
    hide FormatTimestamp, Copies, Buffered;
    if run != [] {
      var last := run[|run| - 1];
      var a := Arrival(last.secs, last.message);
      EveryTargetIsTracked(run[..|run| - 1], target);
      TrackAll(ViewAfter(run[..|run| - 1]), last.targets, target, HistoryOf(run[..|run| - 1], target), a);
    }
  }

  /** The clock of a run never goes back, before the year 10000. */
  ghost predicate RunOnTime(run: seq<Incoming>) {
    && (forall k :: 0 <= k < |run| ==> run[k].secs < END_OF_9999)
    && (forall i, j :: 0 <= i < j < |run| ==> run[i].secs <= run[j].secs)
  }

  lemma {:induction false} CopiesAreEqual(targets: seq<Bytes>, target: Bytes, a: Arrival)
    ensures forall k :: 0 <= k < |Copies(targets, target, a)| ==> Copies(targets, target, a)[k] == a
  {
    if targets != [] {
      CopiesAreEqual(targets[..|targets| - 1], target, a);
    }
  }

  lemma OnTimeThenCopies(h: seq<Arrival>, more: seq<Arrival>, secs: u64)
    requires OnTime(h) && (h != [] ==> h[|h| - 1].secs <= secs) && secs < END_OF_9999
    requires forall k :: 0 <= k < |more| ==> more[k].secs == secs
    ensures OnTime(h + more) && (h + more != [] ==> (h + more)[|h + more| - 1].secs <= secs)
  {
    assert forall k :: 0 <= k < |h| ==> h[k].secs <= h[|h| - 1].secs;
  }

  lemma {:induction false} HistoryIsOnTime(run: seq<Incoming>, target: Bytes)
    requires RunOnTime(run)
    ensures var h := HistoryOf(run, target);
            OnTime(h) && (h != [] ==> run != [] && h[|h| - 1].secs <= run[|run| - 1].secs)
    decreases |run|
  {
    if run != [] {
      var front, last := run[..|run| - 1], run[|run| - 1];
      HistoryIsOnTime(front, target);
      CopiesAreEqual(last.targets, target, Arrival(last.secs, last.message));
      var a := Arrival(last.secs, last.message);
      OnTimeThenCopies(HistoryOf(front, target), Copies(last.targets, target, a), last.secs);
    }
  }

  /** For any run of the bouncer and any target, replaying since a second gives exactly the target's messages of that
      second or later among the last 5000 sent to it, in order. */
  lemma BouncerReplaysSince(run: seq<Incoming>, target: Bytes, secs: u64)
    requires RunOnTime(run) && secs < END_OF_9999
    ensures target in ViewAfter(run) <==> HistoryOf(run, target) != []
    ensures target in ViewAfter(run) ==>
              (var held := ViewAfter(run)[target];
               && held == Stamped(LastOf(HistoryOf(run, target), DEFAULT_MAX))
               && From(held, FormatTimestamp(secs))
                  == Stamped(ArrivedSince(LastOf(HistoryOf(run, target), DEFAULT_MAX), secs)))
  {
    hide FormatTimestamp, OnTime, RunOnTime, ViewAfter, AfterPushes;
    EveryTargetIsTracked(run, target);
    HistoryIsOnTime(run, target);
    ReplaySince(DEFAULT_MAX, HistoryOf(run, target), secs);
    BufferHoldsTheLast(DEFAULT_MAX, Stamped(HistoryOf(run, target)));
    LastOnTime(HistoryOf(run, target), DEFAULT_MAX);
  }
}
