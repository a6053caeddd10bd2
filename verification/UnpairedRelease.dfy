/** A release of the per-IP limiter by a task that never acquired: when it is safe, and what a wrapped count does. */
module UnpairedRelease {
  import opened Widths
  import opened Limiter

  // ----- One more call -----

  /** The state with one more call: a release by a task that never acquired. */
  function WithUnpaired(s: State, u: Tid, ip: IpAddr, pc: Pc): State {
    s.(tasks := s.tasks[u := Task(ip, pc)])
  }

  /** Until it subtracts, the unpaired release only holds others up: what they do, they could have done without it. */
  lemma UnpairedOnlyBlocks(c: Config, s: State, u: Tid, ip: IpAddr, pc: Pc, t: Tid, step: Step)
    requires u !in s.tasks && t != u && Enabled(c, WithUnpaired(s, u, ip, pc), t, step)
    ensures Enabled(c, s, t, step)
    ensures Apply(c, WithUnpaired(s, u, ip, pc), t, step) == WithUnpaired(Apply(c, s, t, step), u, ip, pc)
  {
    hide CanExclude, CanShare;
    OthersSeeTheSame(c, s, u, ip, pc, t);
    var next := Apply(c, s, t, step).tasks[t].pc;
    assert s.tasks[u := Task(ip, pc)][t := s.tasks[t].(pc := next)]
        == s.tasks[t := s.tasks[t].(pc := next)][u := Task(ip, pc)];
  }

  /** The others' guards are only harder to get, and their map and task are the same. */
  lemma OthersSeeTheSame(c: Config, s: State, u: Tid, ip: IpAddr, pc: Pc, t: Tid)
    requires u !in s.tasks && t != u && t in WithUnpaired(s, u, ip, pc).tasks
    ensures var w := WithUnpaired(s, u, ip, pc);
            && t in s.tasks && w.tasks[t] == s.tasks[t] && w.counts == s.counts
            && (CanExclude(c, w, s.tasks[t].ip) ==> CanExclude(c, s, s.tasks[t].ip))
            && (CanShare(c, w, s.tasks[t].ip) ==> CanShare(c, s, s.tasks[t].ip))
  {
    var w := WithUnpaired(s, u, ip, pc);
    assert forall v :: v in s.tasks ==> v in w.tasks && w.tasks[v] == s.tasks[v];
  }

  /** What holds of the others while an unpaired release shares the guard on an entry it found. */
  ghost predicate FoundEntry(c: Config, s: State, u: Tid, ip: IpAddr) {
    Reachable(c, s) && u !in s.tasks && CanShare(c, s, ip) && ip in s.counts
  }

  lemma StepBesideUnpaired(c: Config, s: State, u: Tid, ip: IpAddr, t: Tid, step: Step)
    requires FoundEntry(c, s, u, ip) && t != u && Enabled(c, WithUnpaired(s, u, ip, Reading), t, step)
    ensures Enabled(c, s, t, step) && FoundEntry(c, Apply(c, s, t, step), u, ip)
    ensures Apply(c, WithUnpaired(s, u, ip, Reading), t, step) == WithUnpaired(Apply(c, s, t, step), u, ip, Reading)
  {
    hide Reachable;
    UnpairedOnlyBlocks(c, s, u, ip, Reading, t, step);
    StillReachable(c, s, t, step);
    assert WithUnpaired(s, u, ip, Reading).tasks[u] == Task(ip, Reading);
  }

  lemma StillReachable(c: Config, s: State, t: Tid, step: Step)
    requires Reachable(c, s) && Enabled(c, s, t, step)
    ensures Reachable(c, Apply(c, s, t, step))
  {
    hide Reaches, Enabled, Apply;
    var start, schedule :| Init(start) && Reaches(c, start, schedule, s);
    var longer := Then(c, start, schedule, s, t, step, Apply(c, s, t, step));
  }

  /** However the others run between its lookup and its subtraction, they are in a state they reach without it. */
  lemma {:induction false} RunBesideUnpaired(c: Config, s: State, u: Tid, ip: IpAddr, schedule: seq<Event>, end: State)
      returns (others: State)
    requires FoundEntry(c, s, u, ip) && Reaches(c, WithUnpaired(s, u, ip, Reading), schedule, end)
    requires forall k :: 0 <= k < |schedule| ==> schedule[k].t != u
    ensures FoundEntry(c, others, u, ip) && end == WithUnpaired(others, u, ip, Reading)
    decreases |schedule|
  {
    hide FoundEntry, Enabled, Apply, WithUnpaired;
    if schedule == [] {
      others := s;
    } else {
      var e := schedule[0];
      StepBesideUnpaired(c, s, u, ip, e.t, e.step);
      others := RunBesideUnpaired(c, Apply(c, s, e.t, e.step), u, ip, schedule[1..], end);
    }
  }

  /** Where an unpaired release starts: it does nothing when the address is not in the map, else it finds the entry. */
  lemma UnpairedLookup(c: Config, s: State, u: Tid, ip: IpAddr)
    requires Reachable(c, s) && u !in s.tasks && Enabled(c, WithUnpaired(s, u, ip, Held), u, Lookup)
    ensures ip in s.counts ==> FoundEntry(c, s, u, ip)
    ensures Apply(c, WithUnpaired(s, u, ip, Held), u, Lookup)
            == WithUnpaired(s, u, ip, if ip in s.counts then Reading else Done)
  {
    hide Reachable;
    assert forall v :: v in s.tasks ==> WithUnpaired(s, u, ip, Held).tasks[v] == s.tasks[v];
  }

  /** The subtraction grows the count instead of lowering it. */
  predicate Wraps(c: Config, s: State, u: Tid)
    requires Enabled(c, s, u, Subtract)
  {
    CountOf(Apply(c, s, u, Subtract), s.tasks[u].ip) > CountOf(s, s.tasks[u].ip)
  }

  /** A removal of the address is still to come. */
  predicate RemovalPending(s: State, ip: IpAddr) {
    exists t :: t in s.tasks && s.tasks[t].ip == ip
                && (s.tasks[t].pc.Removing? || (s.tasks[t].pc.Subtracted? && s.tasks[t].pc.prev <= 1))
  }

  /** The subtraction of an unpaired release that found an entry: it wraps exactly when the count is zero then, so
      exactly when nobody holds a slot, which with a limit of at least one is only while a removal of the address is
      pending. Otherwise it takes somebody else's slot from the count. */
  lemma UnpairedReleaseWraps(c: Config, s: State, u: Tid, ip: IpAddr)
    requires FoundEntry(c, s, u, ip)
    ensures Enabled(c, WithUnpaired(s, u, ip, Reading), u, Subtract)
    ensures var w := WithUnpaired(s, u, ip, Reading);
            && (Wraps(c, w, u) <==> s.counts[ip] == 0)
            && (Wraps(c, w, u) <==> Holders(s, ip) == {})
            && (Wraps(c, w, u) && c.max >= 1 ==> RemovalPending(s, ip))
            && CountOf(Apply(c, w, u, Subtract), ip) == if Wraps(c, w, u) then 0xffff_ffff else |Holders(s, ip)| - 1
  {
    hide Reachable, GuardsExclude, TasksSeeTheirEntry;
    ReachableHolds(c, s);
    assert CountOf(s, ip) == |Holders(s, ip)|;
    if s.counts[ip] == 0 && c.max >= 1 {
      var t :| t in s.tasks && s.tasks[t].ip == ip && Pending(s.tasks[t].pc);
    }
  }

  // ----- What a wrapped count does -----

  /** The count of the address is stuck at its greatest value and no task can bring it down or in. */
  predicate LockedOut(s: State, ip: IpAddr) {
    && ip in s.counts && s.counts[ip] == 0xffff_ffff
    && forall t :: t in s.tasks && s.tasks[t].ip == ip ==>
         var pc := s.tasks[t].pc;
         !HoldsSlot(pc) && (pc.Loaded? ==> pc.current == 0xffff_ffff)
  }

  lemma WrapLocksOut(c: Config, s: State, u: Tid, ip: IpAddr)
    requires FoundEntry(c, s, u, ip) && s.counts[ip] == 0
    ensures Enabled(c, WithUnpaired(s, u, ip, Reading), u, Subtract)
    ensures LockedOut(Apply(c, WithUnpaired(s, u, ip, Reading), u, Subtract), ip)
  {
    hide Reachable, GuardsExclude, TasksSeeTheirEntry, ZerosArePending;
    ReachableHolds(c, s);
    forall t | t in s.tasks && s.tasks[t].ip == ip
      ensures !HoldsSlot(s.tasks[t].pc) && !s.tasks[t].pc.Loaded?
    {
      if HoldsSlot(s.tasks[t].pc) {
        HolderIsCounted(c, s, t);
        assert false;
      }
    }
  }

  /** No call of a paired task undoes it: the entry stays at its greatest value through every later run of the tasks
      there are, and none of the address is ever admitted again. */
  lemma {:induction false} LockedOutForGood(c: Config, s: State, ip: IpAddr, schedule: seq<Event>, end: State)
    requires LockedOut(s, ip) && Reaches(c, s, schedule, end)
    ensures LockedOut(end, ip)
    decreases |schedule|
  {
    hide LockedOut, Apply, Enabled;
    if schedule != [] {
      var e := schedule[0];
      StepKeepsLockedOut(c, s, ip, e.t, e.step);
      LockedOutForGood(c, Apply(c, s, e.t, e.step), ip, schedule[1..], end);
    }
  }

  lemma StepKeepsLockedOut(c: Config, s: State, ip: IpAddr, t: Tid, step: Step)
    requires LockedOut(s, ip) && Enabled(c, s, t, step)
    ensures LockedOut(Apply(c, s, t, step), ip)
  {
  }

  // ----- When an unpaired release is safe -----

  /** The count is one short of the tasks that will still take one off it, and nothing keeps them from doing so. */
  ghost predicate OneShort(c: Config, s: State, ip: IpAddr) {
    CanShare(c, s, ip) && ip in s.counts && CountOf(s, ip) + 1 == |Holders(s, ip)|
  }

  lemma FoundEntryIsOneShort(c: Config, s: State, u: Tid, ip: IpAddr)
    requires FoundEntry(c, s, u, ip)
    ensures OneShort(c, WithUnpaired(s, u, ip, Reading), ip)
  {
    hide Reachable, GuardsExclude, TasksSeeTheirEntry, ZerosArePending, CanShare, Holders, HoldsSlot;
    ReachableHolds(c, s);
    assert CountOf(s, ip) == |Holders(s, ip)|;
    OneMoreHolder(c, s, u, ip);
  }

  lemma OneMoreHolder(c: Config, s: State, u: Tid, ip: IpAddr)
    requires u !in s.tasks && CanShare(c, s, ip)
    ensures CanShare(c, WithUnpaired(s, u, ip, Reading), ip)
    ensures |Holders(WithUnpaired(s, u, ip, Reading), ip)| == |Holders(s, ip)| + 1
  {
    var w := WithUnpaired(s, u, ip, Reading);
    assert Holders(w, ip) == Holders(s, ip) + {u};
    assert forall v :: v in w.tasks && v != u ==> v in s.tasks && w.tasks[v] == s.tasks[v];
  }

  /** A task of the address that holds a slot can look the entry up, unless it has already. */
  lemma HolderLooksUp(c: Config, s: State, ip: IpAddr, t: Tid) returns (s': State)
    requires OneShort(c, s, ip) && t in Holders(s, ip) && s.tasks[t].pc.Held?
    ensures Moves(c, s, t, Lookup, s')
    ensures OneShort(c, s', ip) && Holders(s', ip) == Holders(s, ip) && s'.tasks[t].pc.Reading?
  {
    s' := Go(s, t, Reading);
    assert Holders(s', ip) == Holders(s, ip);
  }

  /** Then it can take one off the count: that leaves it one short again, or wraps it if it was the last. */
  lemma HolderSubtracts(c: Config, s: State, ip: IpAddr, t: Tid) returns (s': State)
    requires OneShort(c, s, ip) && t in Holders(s, ip) && s.tasks[t].pc.Reading?
    ensures Moves(c, s, t, Subtract, s')
    ensures |Holders(s', ip)| < |Holders(s, ip)|
    ensures if Holders(s', ip) == {} then LockedOut(s', ip) else OneShort(c, s', ip)
  {
    hide LockedOut;
    var n := s.counts[ip];
    s' := Go(s, t, Subtracted(n)).(counts := s.counts[ip := WrappingDecrement(n)]);
    HoldersMove(s, t, Subtracted(n), s.counts[ip := WrappingDecrement(n)], ip);
    assert |Holders(s', ip)| == |Holders(s, ip)| - 1;
    StillShared(c, s, t, s', ip);
    if Holders(s', ip) == {} {
      NobodyLeft(c, s', ip);
    }
  }

  lemma StillShared(c: Config, s: State, t: Tid, s': State, ip: IpAddr)
    requires CanShare(c, s, ip) && t in s.tasks && s'.tasks.Keys == s.tasks.Keys && !Exclusive(s'.tasks[t].pc)
    requires forall v :: v in s.tasks && v != t ==> s'.tasks[v] == s.tasks[v]
    ensures CanShare(c, s', ip)
  {
  }

  lemma NobodyLeft(c: Config, s: State, ip: IpAddr)
    requires CanShare(c, s, ip) && ip in s.counts && s.counts[ip] == 0xffff_ffff && Holders(s, ip) == {}
    ensures LockedOut(s, ip)
  {
    forall t | t in s.tasks && s.tasks[t].ip == ip
      ensures !HoldsSlot(s.tasks[t].pc)
    {
      assert t !in Holders(s, ip);
    }
  }

  /** Somewhere a run leads to a locked-out address. */
  ghost predicate CanLockOut(c: Config, s: State, ip: IpAddr) {
    exists schedule, end :: Reaches(c, s, schedule, end) && LockedOut(end, ip)
  }

  lemma LockedOutHere(c: Config, s: State, ip: IpAddr)
    requires LockedOut(s, ip)
    ensures CanLockOut(c, s, ip)
  {
    hide LockedOut;
    assert Reaches(c, s, [], s);
  }

  lemma CanLockOutBefore(c: Config, s: State, ip: IpAddr, t: Tid, step: Step, s': State)
    requires Moves(c, s, t, step, s') && CanLockOut(c, s', ip)
    ensures CanLockOut(c, s, ip)
  {
    hide LockedOut, Enabled, Apply;
    var schedule, end :| Reaches(c, s', schedule, end) && LockedOut(end, ip);
    var longer := [Event(t, step)] + schedule;
    assert longer[1..] == schedule;
    assert Reaches(c, s, longer, end);
  }

  /** The holders release one after the other, and the last one wraps. */
  lemma {:induction false} OneShortLocksOut(c: Config, s: State, ip: IpAddr)
    requires OneShort(c, s, ip)
    ensures CanLockOut(c, s, ip)
    decreases |Holders(s, ip)|
  {
    hide CanLockOut, Moves, LockedOut, CanShare;
    var t :| t in Holders(s, ip);
    var s1 := s;
    if s.tasks[t].pc.Held? {
      s1 := HolderLooksUp(c, s, ip, t);
    }
    var s2 := HolderSubtracts(c, s1, ip, t);
    if Holders(s2, ip) == {} {
      LockedOutHere(c, s2, ip);
    } else {
      OneShortLocksOut(c, s2, ip);
    }
    CanLockOutBefore(c, s1, ip, t, Subtract, s2);
    if s.tasks[t].pc.Held? {
      CanLockOutBefore(c, s, ip, t, Lookup, s1);
    }
  }

  /** A release that found nothing is over, and what others do keeps their counts exact. */
  lemma NothingFoundIsSafe(c: Config, s: State, u: Tid, ip: IpAddr, schedule: seq<Event>, end: State)
    requires Reachable(c, s) && u !in s.tasks && Reaches(c, WithUnpaired(s, u, ip, Done), schedule, end)
    ensures Invariant(c, end) && !LockedOut(end, ip)
  {
    hide Reachable, Reaches, Invariant;
    ReachableHolds(c, s);
    DoneChangesNothing(c, s, u, ip);
    RunKeepsInvariant(c, WithUnpaired(s, u, ip, Done), schedule, end);
    ExactIsNotLockedOut(c, end, ip);
  }

  lemma DoneChangesNothing(c: Config, s: State, u: Tid, ip: IpAddr)
    requires Invariant(c, s) && u !in s.tasks
    ensures Invariant(c, WithUnpaired(s, u, ip, Done))
  {
    var w := WithUnpaired(s, u, ip, Done);
    assert forall v :: v in s.tasks ==> v in w.tasks && w.tasks[v] == s.tasks[v];
    forall i
      ensures CountOf(w, i) == |Holders(w, i)| && CountOf(w, i) <= c.max
    {
      assert Holders(w, i) == Holders(s, i);
      assert CountOf(w, i) == CountOf(s, i);
    }
  }

  lemma ExactIsNotLockedOut(c: Config, s: State, ip: IpAddr)
    requires Invariant(c, s)
    ensures !LockedOut(s, ip)
  {
    hide GuardsExclude, TasksSeeTheirEntry, ZerosArePending;
    assert CountOf(s, ip) == |Holders(s, ip)|;
    if Holders(s, ip) != {} {
      var t :| t in Holders(s, ip);
      assert t in s.tasks && s.tasks[t].ip == ip && HoldsSlot(s.tasks[t].pc);
    }
  }

  /** An unpaired release can end in a locked-out address if and only if the address is in the map at its lookup:
      safe exactly where it does nothing. */
  lemma UnpairedReleaseIsSafeIffAbsent(c: Config, s: State, u: Tid, ip: IpAddr)
    requires Reachable(c, s) && u !in s.tasks && Enabled(c, WithUnpaired(s, u, ip, Held), u, Lookup)
    ensures CanLockOut(c, Apply(c, WithUnpaired(s, u, ip, Held), u, Lookup), ip) <==> ip in s.counts
  {
    hide Reachable, Reaches, LockedOut, WithUnpaired, OneShort, Apply, FoundEntry;
    UnpairedLookup(c, s, u, ip);
    if ip in s.counts {
      FoundEntryIsOneShort(c, s, u, ip);
      OneShortLocksOut(c, WithUnpaired(s, u, ip, Reading), ip);
    } else {
      forall schedule, end | Reaches(c, WithUnpaired(s, u, ip, Done), schedule, end)
        ensures !LockedOut(end, ip)
      {
        NothingFoundIsSafe(c, s, u, ip, schedule, end);
      }
    }
  }

  // ----- Two runs -----

  lemma AdmittedMoves(c: Config, ip: IpAddr)
    ensures c.max >= 1 ==> Moves(c, Alone(ip, Loaded(0), 0), 0, CasSucceeds, Alone(ip, Held, 1))
    ensures Moves(c, Alone(ip, Held, 1), 0, Lookup, Alone(ip, Reading, 1))
    ensures Moves(c, Alone(ip, Reading, 1), 0, Subtract, Alone(ip, Subtracted(1), 0))
    ensures Moves(c, Alone(ip, Subtracted(1), 0), 0, DropGuard, Alone(ip, Removing, 0))
  {
  }

  /** One connection, admitted; then between its decrement and its removal. */
  lemma OneHeldThenRemoving(c: Config, ip: IpAddr)
    requires c.max >= 1
    ensures Reachable(c, Alone(ip, Held, 1)) && Reachable(c, Alone(ip, Removing, 0))
  {
    hide Moves, Reaches, Alone;
    RefusedMoves(c, ip);
    AdmittedMoves(c, ip);
    Stays(c, Fresh(ip));
    var schedule := Then(c, Fresh(ip), [], Fresh(ip), 0, Enter, Alone(ip, Entered, 0));
    schedule := Then(c, Fresh(ip), schedule, Alone(ip, Entered, 0), 0, Load, Alone(ip, Loaded(0), 0));
    schedule := Then(c, Fresh(ip), schedule, Alone(ip, Loaded(0), 0), 0, CasSucceeds, Alone(ip, Held, 1));
    assert Init(Fresh(ip));
    assert Reachable(c, Alone(ip, Held, 1));
    schedule := Then(c, Fresh(ip), schedule, Alone(ip, Held, 1), 0, Lookup, Alone(ip, Reading, 1));
    schedule := Then(c, Fresh(ip), schedule, Alone(ip, Reading, 1), 0, Subtract, Alone(ip, Subtracted(1), 0));
    schedule := Then(c, Fresh(ip), schedule, Alone(ip, Subtracted(1), 0), 0, DropGuard, Alone(ip, Removing, 0));
  }

  /** Two tasks of one address. */
  function Both(ip: IpAddr, first: Pc, second: Pc, count: u32): State {
    State(map[ip := count], map[0 := Task(ip, first), 1 := Task(ip, second)])
  }

  lemma UnpairedMoves(c: Config, ip: IpAddr)
    ensures WithUnpaired(Alone(ip, Removing, 0), 1, ip, Held) == Both(ip, Removing, Held, 0)
    ensures Moves(c, Both(ip, Removing, Held, 0), 1, Lookup, Both(ip, Removing, Reading, 0))
    ensures Moves(c, Both(ip, Removing, Reading, 0), 1, Subtract, Both(ip, Removing, Subtracted(0), 0xffff_ffff))
  {
  }

  lemma NotRemovedMoves(c: Config, ip: IpAddr)
    ensures Moves(c, Both(ip, Removing, Subtracted(0), 0xffff_ffff), 1, DropGuard,
                  Both(ip, Removing, Removing, 0xffff_ffff))
    ensures Moves(c, Both(ip, Removing, Removing, 0xffff_ffff), 1, RemoveIf, Both(ip, Removing, Done, 0xffff_ffff))
    ensures Moves(c, Both(ip, Removing, Done, 0xffff_ffff), 0, RemoveIf, Both(ip, Done, Done, 0xffff_ffff))
  {
  }

  /** A run that ends in it: one connection acquires and releases, and between its decrement and its removal a second
      release of the address, never acquired, wraps the count; both removals then find it not zero. */
  lemma SaturationFails(c: Config) returns (s: State, ip: IpAddr, schedule: seq<Event>, end: State)
    requires c.max >= 1
    ensures Reachable(c, s) && 1 !in s.tasks && ip in s.counts && s.counts[ip] == 0
    ensures Reaches(c, WithUnpaired(s, 1, ip, Held), schedule, end)
    ensures (forall t :: t in end.tasks ==> end.tasks[t].pc.Done?) && LockedOut(end, ip)
  {
    hide Moves, Reaches, Reachable, WithUnpaired;
    ip := V4(0);
    s := Alone(ip, Removing, 0);
    end := Both(ip, Done, Done, 0xffff_ffff);
    OneHeldThenRemoving(c, ip);
    schedule := FromUnpaired(c, ip);
  }

  lemma FromUnpaired(c: Config, ip: IpAddr) returns (schedule: seq<Event>)
    ensures Reaches(c, WithUnpaired(Alone(ip, Removing, 0), 1, ip, Held), schedule, Both(ip, Done, Done, 0xffff_ffff))
  {
    hide Moves, Reaches, Both, WithUnpaired;
    UnpairedMoves(c, ip);
    NotRemovedMoves(c, ip);
    var start := Both(ip, Removing, Held, 0);
    var wrapped := Both(ip, Removing, Subtracted(0), 0xffff_ffff);
    Stays(c, start);
    schedule := Then(c, start, [], start, 1, Lookup, Both(ip, Removing, Reading, 0));
    schedule := Then(c, start, schedule, Both(ip, Removing, Reading, 0), 1, Subtract, wrapped);
    schedule := Then(c, start, schedule, wrapped, 1, DropGuard, Both(ip, Removing, Removing, 0xffff_ffff));
    schedule := Then(c, start, schedule, Both(ip, Removing, Removing, 0xffff_ffff), 1, RemoveIf,
                     Both(ip, Removing, Done, 0xffff_ffff));
    schedule := Then(c, start, schedule, Both(ip, Removing, Done, 0xffff_ffff), 0, RemoveIf,
                     Both(ip, Done, Done, 0xffff_ffff));
  }

  /** A run in which the count is not zero when the unpaired release finds it: the release takes off the slot of the
      one holder, its own subtraction does not wrap, and the holder's paired release then does. */
  lemma StolenSlotWraps(c: Config) returns (s: State, ip: IpAddr, schedule: seq<Event>, end: State)
    requires c.max >= 1
    ensures FoundEntry(c, s, 1, ip) && s.counts[ip] == 1 == |Holders(s, ip)|
    ensures Enabled(c, WithUnpaired(s, 1, ip, Reading), 1, Subtract) && !Wraps(c, WithUnpaired(s, 1, ip, Reading), 1)
    ensures Reaches(c, WithUnpaired(s, 1, ip, Held), schedule, end)
    ensures (forall t :: t in end.tasks ==> end.tasks[t].pc.Done?) && LockedOut(end, ip)
  {
    hide Moves, Reaches, Reachable;
    ip := V4(0);
    s := Alone(ip, Held, 1);
    end := Both(ip, Done, Done, 0xffff_ffff);
    OneHeldThenRemoving(c, ip);
    assert Holders(s, ip) == {0};
    schedule := FromHolder(c, ip);
  }

  lemma StealingMoves(c: Config, ip: IpAddr)
    ensures WithUnpaired(Alone(ip, Held, 1), 1, ip, Held) == Both(ip, Held, Held, 1)
    ensures Moves(c, Both(ip, Held, Held, 1), 1, Lookup, Both(ip, Held, Reading, 1))
    ensures Moves(c, Both(ip, Held, Reading, 1), 1, Subtract, Both(ip, Held, Subtracted(1), 0))
    ensures Moves(c, Both(ip, Held, Subtracted(1), 0), 1, DropGuard, Both(ip, Held, Removing, 0))
  {
  }

  lemma StolenMoves(c: Config, ip: IpAddr)
    ensures Moves(c, Both(ip, Held, Removing, 0), 0, Lookup, Both(ip, Reading, Removing, 0))
    ensures Moves(c, Both(ip, Reading, Removing, 0), 0, Subtract, Both(ip, Subtracted(0), Removing, 0xffff_ffff))
    ensures Moves(c, Both(ip, Subtracted(0), Removing, 0xffff_ffff), 0, DropGuard,
                  Both(ip, Removing, Removing, 0xffff_ffff))
  {
  }

  lemma FromHolder(c: Config, ip: IpAddr) returns (schedule: seq<Event>)
    ensures Reaches(c, WithUnpaired(Alone(ip, Held, 1), 1, ip, Held), schedule, Both(ip, Done, Done, 0xffff_ffff))
  {
    hide Moves, Reaches, Both, WithUnpaired;
    StealingMoves(c, ip);
    StolenMoves(c, ip);
    NotRemovedMoves(c, ip);
    var start := Both(ip, Held, Held, 1);
    var stolen := Both(ip, Held, Removing, 0);
    var wrapped := Both(ip, Subtracted(0), Removing, 0xffff_ffff);
    Stays(c, start);
    schedule := Then(c, start, [], start, 1, Lookup, Both(ip, Held, Reading, 1));
    schedule := Then(c, start, schedule, Both(ip, Held, Reading, 1), 1, Subtract, Both(ip, Held, Subtracted(1), 0));
    schedule := Then(c, start, schedule, Both(ip, Held, Subtracted(1), 0), 1, DropGuard, stolen);
    schedule := Then(c, start, schedule, stolen, 0, Lookup, Both(ip, Reading, Removing, 0));
    schedule := Then(c, start, schedule, Both(ip, Reading, Removing, 0), 0, Subtract, wrapped);
    schedule := Then(c, start, schedule, wrapped, 0, DropGuard, Both(ip, Removing, Removing, 0xffff_ffff));
    schedule := Then(c, start, schedule, Both(ip, Removing, Removing, 0xffff_ffff), 1, RemoveIf,
                     Both(ip, Removing, Done, 0xffff_ffff));
    schedule := Then(c, start, schedule, Both(ip, Removing, Done, 0xffff_ffff), 0, RemoveIf,
                     Both(ip, Done, Done, 0xffff_ffff));
  }
}
