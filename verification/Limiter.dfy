/** The per-IP connection limiter as a state machine over the atomic steps of its threads.

    Each connection task is one thread: it calls try_acquire once, and release once if it was admitted.
    A DashMap shard is guarded by a readers-writer lock: entry() and remove_if() hold it exclusively, get() shares it. */
module Limiter {
  import opened Widths

  datatype IpAddr = V4(bits: nat) | V6(bits: nat)

  type Tid = nat

  datatype Pc =
    | Idle                     // before try_acquire
    | Entered                  // exclusive guard held, the entry exists
    | Loaded(current: u32)     // exclusive guard held, the counter has been read
    | Held                     // admitted: the connection runs, no guard held
    | Reading                  // release found the entry and shares the guard
    | Subtracted(prev: u32)    // the counter has been decremented, guard still shared
    | Removing                 // guard dropped, remove_if still to run
    | Done

  datatype Task = Task(ip: IpAddr, pc: Pc)

  datatype State = State(counts: map<IpAddr, u32>, tasks: map<Tid, Task>)

  /** The limit and the way addresses are spread over the shards of the map. */
  datatype Config = Config(max: u32, shard: IpAddr -> nat)

  // ----- Guards -----

  predicate Exclusive(pc: Pc) {
    pc.Entered? || pc.Loaded?
  }

  predicate Shared(pc: Pc) {
    pc.Reading? || pc.Subtracted?
  }

  predicate CanShare(c: Config, s: State, ip: IpAddr) {
    forall t :: t in s.tasks && c.shard(s.tasks[t].ip) == c.shard(ip) ==> !Exclusive(s.tasks[t].pc)
  }

  predicate CanExclude(c: Config, s: State, ip: IpAddr) {
    forall t :: t in s.tasks && c.shard(s.tasks[t].ip) == c.shard(ip) ==>
                  !Exclusive(s.tasks[t].pc) && !Shared(s.tasks[t].pc)
  }

  // ----- Steps -----

  function Go(s: State, t: Tid, pc: Pc): State
    requires t in s.tasks
  {
    s.(tasks := s.tasks[t := s.tasks[t].(pc := pc)])
  }

  datatype Step =
    | Enter | Load | Refuse | CasSucceeds | CasFails     // try_acquire
    | Lookup | Subtract | DropGuard | RemoveIf           // release

  predicate Enabled(c: Config, s: State, t: Tid, step: Step) {
    t in s.tasks &&
    var ip, pc := s.tasks[t].ip, s.tasks[t].pc;
    match step
    case Enter => pc.Idle? && CanExclude(c, s, ip)
    case Load => pc.Entered? && ip in s.counts
    case Refuse => pc.Loaded? && pc.current >= c.max
    case CasSucceeds => pc.Loaded? && pc.current < c.max && ip in s.counts && s.counts[ip] == pc.current
    case CasFails => pc.Loaded? && pc.current < c.max
    case Lookup => pc.Held? && CanShare(c, s, ip)
    case Subtract => pc.Reading? && ip in s.counts
    case DropGuard => pc.Subtracted?
    case RemoveIf => pc.Removing? && CanExclude(c, s, ip)
  }

  /** fetch_sub wraps around at zero. */
  function WrappingDecrement(n: u32): u32 {
    if n == 0 then 0xffff_ffff else n - 1
  }

  function Apply(c: Config, s: State, t: Tid, step: Step): State
    requires Enabled(c, s, t, step)
  {
    var ip, pc := s.tasks[t].ip, s.tasks[t].pc;
    match step
    case Enter => Go(s, t, Entered).(counts := if ip in s.counts then s.counts else s.counts[ip := 0])
    case Load => Go(s, t, Loaded(s.counts[ip]))
    case Refuse => Go(s, t, Done)
    case CasSucceeds => Go(s, t, Held).(counts := s.counts[ip := pc.current + 1])
    case CasFails => Go(s, t, Entered)
    case Lookup => Go(s, t, if ip in s.counts then Reading else Done)
    case Subtract => Go(s, t, Subtracted(s.counts[ip])).(counts := s.counts[ip := WrappingDecrement(s.counts[ip])])
    case DropGuard => Go(s, t, if pc.prev <= 1 then Removing else Done)
    case RemoveIf =>
      Go(s, t, Done).(counts := if ip in s.counts && s.counts[ip] == 0 then s.counts - {ip} else s.counts)
  }

  predicate Init(s: State) {
    s.counts == map[] && forall t :: t in s.tasks ==> s.tasks[t].pc.Idle?
  }

  datatype Event = Event(t: Tid, step: Step)

  /** The state after the events of a schedule, when each of them is enabled. */
  predicate Reaches(c: Config, s: State, schedule: seq<Event>, end: State)
    decreases |schedule|
  {
    if schedule == [] then s == end
    else
      var e := schedule[0];
      Enabled(c, s, e.t, e.step) && Reaches(c, Apply(c, s, e.t, e.step), schedule[1..], end)
  }

  ghost predicate Reachable(c: Config, s: State) {
    exists start, schedule :: Init(start) && Reaches(c, start, schedule, s)
  }

  // ----- The invariant -----

  /** Admitted and not yet given back. */
  predicate HoldsSlot(pc: Pc) {
    pc.Held? || pc.Reading?
  }

  function Holders(s: State, ip: IpAddr): set<Tid> {
    set t | t in s.tasks && s.tasks[t].ip == ip && HoldsSlot(s.tasks[t].pc)
  }

  function CountOf(s: State, ip: IpAddr): nat {
    if ip in s.counts then s.counts[ip] else 0
  }

  /** An acquire or a removal of this address is under way. */
  predicate Pending(pc: Pc) {
    pc.Entered? || pc.Loaded? || pc.Removing? || (pc.Subtracted? && pc.prev <= 1)
  }

  predicate HasPending(s: State, ip: IpAddr) {
    exists t :: t in s.tasks && s.tasks[t].ip == ip && Pending(s.tasks[t].pc)
  }

  predicate GuardsExclude(c: Config, s: State) {
    forall t, u :: t in s.tasks && u in s.tasks && t != u && Exclusive(s.tasks[t].pc)
                   && c.shard(s.tasks[t].ip) == c.shard(s.tasks[u].ip) ==>
                     !Exclusive(s.tasks[u].pc) && !Shared(s.tasks[u].pc)
  }

  predicate TasksSeeTheirEntry(c: Config, s: State) {
    forall t :: t in s.tasks ==>
      var ip, pc := s.tasks[t].ip, s.tasks[t].pc;
      && (Exclusive(pc) || Shared(pc) || pc.Held? ==> ip in s.counts)
      && (pc.Loaded? ==> s.counts[ip] == pc.current)
  }

  /** Each count is the number of holders and within the limit. */
  ghost predicate CountsAreHolders(c: Config, s: State) {
    forall ip {:trigger CountOf(s, ip)} :: CountOf(s, ip) == |Holders(s, ip)| && CountOf(s, ip) <= c.max
  }

  /** With a limit of at least one, a zero entry is there only while something pending will remove or raise it. */
  predicate ZerosArePending(c: Config, s: State) {
    c.max >= 1 ==> forall ip :: ip in s.counts && s.counts[ip] == 0 ==> HasPending(s, ip)
  }

  ghost predicate Invariant(c: Config, s: State) {
    GuardsExclude(c, s) && TasksSeeTheirEntry(c, s) && CountsAreHolders(c, s) && ZerosArePending(c, s)
  }

  lemma InitHolds(c: Config, s: State)
    requires Init(s)
    ensures Invariant(c, s)
  {
    forall ip
      ensures CountOf(s, ip) == |Holders(s, ip)|
    {
      assert Holders(s, ip) == {};
    }
  }

  /** How the holders change when one task moves. */
  lemma HoldersMove(s: State, t: Tid, pc: Pc, counts: map<IpAddr, u32>, ip: IpAddr)
    requires t in s.tasks
    ensures Holders(Go(s, t, pc).(counts := counts), ip) ==
            if s.tasks[t].ip != ip then Holders(s, ip)
            else if HoldsSlot(pc) then Holders(s, ip) + {t}
            else Holders(s, ip) - {t}
  {
  }

  lemma StepKeepsGuards(c: Config, s: State, t: Tid, step: Step)
    requires Invariant(c, s) && Enabled(c, s, t, step)
    ensures GuardsExclude(c, Apply(c, s, t, step))
  {
  }

  lemma StepKeepsEntries(c: Config, s: State, t: Tid, step: Step)
    requires Invariant(c, s) && Enabled(c, s, t, step)
    ensures TasksSeeTheirEntry(c, Apply(c, s, t, step))
  {
    var ip := s.tasks[t].ip;
    if step.RemoveIf? {
      forall u | u in s.tasks && s.tasks[u].ip == ip && HoldsSlot(s.tasks[u].pc)
        ensures CountOf(s, ip) > 0
      {
        HolderIsCounted(c, s, u);
      }
    }
  }

  lemma HolderIsCounted(c: Config, s: State, t: Tid)
    requires CountsAreHolders(c, s) && t in s.tasks && HoldsSlot(s.tasks[t].pc)
    ensures CountOf(s, s.tasks[t].ip) > 0
  {
    var ip := s.tasks[t].ip;
    assert t in Holders(s, ip);
    assert CountOf(s, ip) == |Holders(s, ip)|;
  }

  lemma StepKeepsCounts(c: Config, s: State, t: Tid, step: Step)
    requires Invariant(c, s) && Enabled(c, s, t, step)
    ensures CountsAreHolders(c, Apply(c, s, t, step))
  {
    hide GuardsExclude, ZerosArePending;
    var s' := Apply(c, s, t, step);
    var mine := s.tasks[t].ip;
    MyCountMoves(c, s, t, step);
    forall ip
      ensures CountOf(s', ip) == |Holders(s', ip)| && CountOf(s', ip) <= c.max
    {
      HoldersMove(s, t, s'.tasks[t].pc, s'.counts, ip);
      assert CountOf(s, ip) == |Holders(s, ip)|;
    }
  }

  /** The step's own count moves with the task's slot. */
  lemma MyCountMoves(c: Config, s: State, t: Tid, step: Step)
    requires TasksSeeTheirEntry(c, s) && CountsAreHolders(c, s) && Enabled(c, s, t, step)
    ensures var ip, was, s' := s.tasks[t].ip, HoldsSlot(s.tasks[t].pc), Apply(c, s, t, step);
            var now := HoldsSlot(s'.tasks[t].pc);
            && CountOf(s', ip) == CountOf(s, ip) + (if now then 1 else 0) - (if was then 1 else 0)
            && CountOf(s', ip) <= c.max
  {
    assert CountOf(s, s.tasks[t].ip) <= c.max;
    if HoldsSlot(s.tasks[t].pc) {
      HolderIsCounted(c, s, t);
    }
  }

  lemma StepKeepsZeros(c: Config, s: State, t: Tid, step: Step)
    requires Invariant(c, s) && Enabled(c, s, t, step)
    ensures ZerosArePending(c, Apply(c, s, t, step))
  {
    var s' := Apply(c, s, t, step);
    var mine := s.tasks[t].ip;
    if c.max >= 1 {
      forall ip | ip in s'.counts && s'.counts[ip] == 0
        ensures HasPending(s', ip)
      {
        if ip == mine && Pending(s'.tasks[t].pc) {
          assert s'.tasks[t].ip == ip;
        } else {
          if step.Lookup? && ip == mine {
            HolderIsCounted(c, s, t);
          }
          var u :| u in s.tasks && s.tasks[u].ip == ip && Pending(s.tasks[u].pc);
          assert u != t && s'.tasks[u] == s.tasks[u];
        }
      }
    }
  }

  lemma StepKeepsInvariant(c: Config, s: State, t: Tid, step: Step)
    requires Invariant(c, s) && Enabled(c, s, t, step)
    ensures Invariant(c, Apply(c, s, t, step))
  {
    StepKeepsGuards(c, s, t, step);
    StepKeepsEntries(c, s, t, step);
    StepKeepsCounts(c, s, t, step);
    StepKeepsZeros(c, s, t, step);
  }

  lemma {:induction false} RunKeepsInvariant(c: Config, s: State, schedule: seq<Event>, end: State)
    requires Invariant(c, s) && Reaches(c, s, schedule, end)
    ensures Invariant(c, end)
    decreases |schedule|
  {
    hide Invariant, Apply, Enabled;
    if schedule != [] {
      var e := schedule[0];
      StepKeepsInvariant(c, s, e.t, e.step);
      RunKeepsInvariant(c, Apply(c, s, e.t, e.step), schedule[1..], end);
    }
  }

  // ----- Main results -----

  lemma ReachableHolds(c: Config, s: State)
    requires Reachable(c, s)
    ensures Invariant(c, s)
  {
    hide Reaches, Invariant;
    var start, schedule :| Init(start) && Reaches(c, start, schedule, s);
    InitHolds(c, start);
    RunKeepsInvariant(c, start, schedule, s);
  }

  /** In every reachable state each IP's count is the number of tasks holding a slot for it, and never over the limit. */
  lemma CountsAreExact(c: Config, s: State, ip: IpAddr)
    requires Reachable(c, s)
    ensures CountOf(s, ip) == |Holders(s, ip)| <= c.max
  {
    hide Reachable;
    ReachableHolds(c, s);
    assert CountOf(s, ip) == |Holders(s, ip)|;
  }

  /** What each step does to the slots of its own address: admission takes exactly one below the limit, refusal happens
      only at the limit, release finds its entry and gives exactly one back without wrapping, removal drops no slot. */
  lemma StepsAreAccounted(c: Config, s: State, t: Tid, step: Step)
    requires Reachable(c, s) && Enabled(c, s, t, step)
    ensures var ip := s.tasks[t].ip;
            var s' := Apply(c, s, t, step);
            match step
            case Refuse => |Holders(s, ip)| == c.max && Holders(s', ip) == Holders(s, ip)
            case CasSucceeds =>
              t !in Holders(s, ip) && |Holders(s, ip)| < c.max && Holders(s', ip) == Holders(s, ip) + {t}
            case Lookup => s'.tasks[t].pc.Reading? && Holders(s', ip) == Holders(s, ip)
            case Subtract => t in Holders(s, ip) && CountOf(s, ip) >= 1 && CountOf(s', ip) == CountOf(s, ip) - 1
                             && Holders(s', ip) == Holders(s, ip) - {t}
            case RemoveIf =>
              (ip !in s'.counts && ip in s.counts ==> Holders(s, ip) == {}) && Holders(s', ip) == Holders(s, ip)
            case _ => Holders(s', ip) == Holders(s, ip)
  {
    ReachableHolds(c, s);
    var ip := s.tasks[t].ip;
    assert CountOf(s, ip) == |Holders(s, ip)|;
    HoldersMove(s, t, Apply(c, s, t, step).tasks[t].pc, Apply(c, s, t, step).counts, ip);
    if step.Subtract? {
      HolderIsCounted(c, s, t);
    }
  }

  /** With a limit of at least one, an address in the map has a holder or something pending, and one with a holder is in
      the map: where nothing is pending for an address, the map holds it exactly while somebody holds a slot for it. */
  lemma EntryIffHeld(c: Config, s: State, ip: IpAddr)
    requires Reachable(c, s) && c.max >= 1
    ensures ip in s.counts ==> Holders(s, ip) != {} || HasPending(s, ip)
    ensures Holders(s, ip) != {} ==> ip in s.counts
    ensures !HasPending(s, ip) ==> (ip in s.counts <==> Holders(s, ip) != {})
  {
    hide Reachable, HasPending;
    ReachableHolds(c, s);
    assert CountOf(s, ip) == |Holders(s, ip)|;
  }

  /** The map leaks no entry of any address in any run if and only if the limit is at least one. */
  lemma NoLeakIffLimitPositive(c: Config)
    ensures (forall s, ip :: Reachable(c, s) && !HasPending(s, ip) ==> (ip in s.counts <==> Holders(s, ip) != {}))
            <==> c.max >= 1
  {
    hide Reachable, HasPending, Holders;
    if c.max >= 1 {
      forall s, ip | Reachable(c, s) && !HasPending(s, ip)
        ensures ip in s.counts <==> Holders(s, ip) != {}
      {
        EntryIffHeld(c, s, ip);
      }
    } else {
      var s, ip := LeakAtZeroLimit(c);
      assert ip in s.counts && Holders(s, ip) == {};
    }
  }

  /** The task's step is enabled and leads to a given state. */
  predicate Moves(c: Config, s: State, t: Tid, step: Step, s': State) {
    Enabled(c, s, t, step) && Apply(c, s, t, step) == s'
  }

  /** A schedule may be extended by any step enabled where it ends. */
  lemma {:induction false} Then(c: Config, s: State, schedule: seq<Event>, mid: State, t: Tid, step: Step, end: State)
      returns (longer: seq<Event>)
    requires Reaches(c, s, schedule, mid) && Moves(c, mid, t, step, end)
    ensures Reaches(c, s, longer, end)
    decreases |schedule|
  {
    hide Apply, Enabled;
    if schedule == [] {
      longer := [Event(t, step)];
      assert longer[1..] == [];
    } else {
      var e := schedule[0];
      var rest := Then(c, Apply(c, s, e.t, e.step), schedule[1..], mid, t, step, end);
      longer := [e] + rest;
      assert longer[1..] == rest;
    }
  }

  /** With a limit of zero a refused connection leaves its zero entry behind, with every task done. */
  lemma LeakAtZeroLimit(c: Config) returns (s: State, ip: IpAddr)
    requires c.max == 0
    ensures Reachable(c, s) && (forall t :: t in s.tasks ==> s.tasks[t].pc.Done?) && !HasPending(s, ip)
    ensures ip in s.counts && Holders(s, ip) == {}
  {
    hide Moves, Reaches;
    ip := V4(0);
    s := Alone(ip, Done, 0);
    RefusedMoves(c, ip);
    Stays(c, Fresh(ip));
    var schedule := Then(c, Fresh(ip), [], Fresh(ip), 0, Enter, Alone(ip, Entered, 0));
    schedule := Then(c, Fresh(ip), schedule, Alone(ip, Entered, 0), 0, Load, Alone(ip, Loaded(0), 0));
    schedule := Then(c, Fresh(ip), schedule, Alone(ip, Loaded(0), 0), 0, Refuse, s);
    assert Holders(s, ip) == {};
  }

  lemma Stays(c: Config, s: State)
    ensures Reaches(c, s, [], s)
  {
  }

  function Fresh(ip: IpAddr): State {
    State(map[], map[0 := Task(ip, Idle)])
  }

  /** One task, and its address with a count. */
  function Alone(ip: IpAddr, pc: Pc, count: u32): State {
    State(map[ip := count], map[0 := Task(ip, pc)])
  }

  lemma RefusedMoves(c: Config, ip: IpAddr)
    ensures Moves(c, Fresh(ip), 0, Enter, Alone(ip, Entered, 0))
    ensures Moves(c, Alone(ip, Entered, 0), 0, Load, Alone(ip, Loaded(0), 0))
    ensures c.max == 0 ==> Moves(c, Alone(ip, Loaded(0), 0), 0, Refuse, Alone(ip, Done, 0))
  {
  }

  // ----- No deadlock -----

  /** Inside try_acquire or release. */
  predicate Busy(pc: Pc) {
    !pc.Idle? && !pc.Held? && !pc.Done?
  }

  /** Whenever a call is under way some call can take a step that is not a failed exchange, so no calls ever wait for
      each other; the shared guard is dropped before the removal that needs the exclusive one. */
  lemma SomeCallProceeds(c: Config, s: State, t: Tid) returns (u: Tid, step: Step)
    requires Reachable(c, s) && t in s.tasks && Busy(s.tasks[t].pc)
    ensures u in s.tasks && Busy(s.tasks[u].pc) && Enabled(c, s, u, step) && step != CasFails
  {
    hide Reachable, CountsAreHolders, ZerosArePending, GuardsExclude;
    ReachableHolds(c, s);
    if v :| v in s.tasks && (Exclusive(s.tasks[v].pc) || Shared(s.tasks[v].pc)) {
      u := v;
      step := match s.tasks[v].pc
              case Entered => Load
              case Loaded(current) => if current >= c.max then Refuse else CasSucceeds
              case Reading => Subtract
              case _ => DropGuard;
    } else {
      u, step := t, RemoveIf;
    }
  }
}
