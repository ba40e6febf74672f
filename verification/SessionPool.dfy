/**
 The session pool of encrypt/pkcs11: a semaphore channel and a channel of idle sessions.

 Acquire, release and drain are several channel operations and token calls each, with any
 interleaving between them, so each of these operations is one `Step`.
 */
module SessionPool {
  import opened Wrappers

  type Handle = nat
  type Caller = nat

  /** How far a goroutine has got inside acquire, the operation, release or drain. */
  datatype Place =
    | Permitted             // acquire: has a permit, has not looked for an idle session
    | Opening               // acquire: found none, is inside C_OpenSession
    | Held(handle: Handle)  // owns a session
    | Closing(handle: Handle)  // release: is inside C_CloseSession
    | Returning             // release: its session is disposed of, it still has its permit
    | Draining(handle: Handle) // drain: is inside C_CloseSession

  datatype State = State(
    capacity: nat,
    sem: nat,                   // len(p.sem): permits taken
    idle: seq<Handle>,          // the buffered channel p.idle
    calls: map<Caller, Place>,
    open: set<Handle>,          // sessions the token has open
    leaked: set<Handle>)        // sessions whose C_CloseSession reported an error

  datatype Step =
    | TakePermit(c: Caller)            // p.sem <- struct{}{}
    | TakeIdle(c: Caller)              // session := <-p.idle
    | FindNoIdle(c: Caller)            // default
    | Opened(c: Caller, h: Handle)     // C_OpenSession succeeds
    | OpenFailed(c: Caller)            // C_OpenSession fails, then <-p.sem
    | PutBack(c: Caller)               // p.idle <- session
    | FindFull(c: Caller)              // default: the pool is full
    | DeclareDead(c: Caller)           // the operation showed a dead session
    | Closed(c: Caller, ok: bool)      // C_CloseSession returns
    | GivePermit(c: Caller)            // <-p.sem
    | DrainTake(c: Caller)             // drain: session := <-p.idle
    | DrainClosed(c: Caller, ok: bool) // drain: C_CloseSession returns
    | Restart                          // the token forgets every session

  predicate At(s: State, c: Caller, place: Place) {
    c in s.calls && s.calls[c] == place
  }

  predicate Enabled(s: State, step: Step) {
    match step
    case TakePermit(c) => c !in s.calls && s.sem < s.capacity
    case TakeIdle(c) => At(s, c, Permitted) && s.idle != []
    case FindNoIdle(c) => At(s, c, Permitted) && s.idle == []
    case Opened(c, h) => At(s, c, Opening) && h !in s.open
    case OpenFailed(c) => At(s, c, Opening) && s.sem > 0
    case PutBack(c) => c in s.calls && s.calls[c].Held? && |s.idle| < s.capacity
    case FindFull(c) => c in s.calls && s.calls[c].Held? && |s.idle| >= s.capacity
    case DeclareDead(c) => c in s.calls && s.calls[c].Held?
    case Closed(c, _) => c in s.calls && s.calls[c].Closing?
    case GivePermit(c) => At(s, c, Returning) && s.sem > 0
    case DrainTake(c) => c !in s.calls && s.idle != []
    case DrainClosed(c, _) => c in s.calls && s.calls[c].Draining?
    case Restart => true
  }

  /** C_CloseSession, which does nothing to a session the token does not know. */
  function Close(s: State, h: Handle, ok: bool): State {
    if h !in s.open then s
    else if ok then s.(open := s.open - {h}, leaked := s.leaked - {h})
    else s.(leaked := s.leaked + {h})
  }

  function Next(s: State, step: Step): State
    requires Enabled(s, step)
  {
    match step
    case TakePermit(c) => s.(sem := s.sem + 1, calls := s.calls[c := Permitted])
    case TakeIdle(c) => s.(idle := s.idle[1..], calls := s.calls[c := Held(s.idle[0])])
    case FindNoIdle(c) => s.(calls := s.calls[c := Opening])
    case Opened(c, h) => s.(calls := s.calls[c := Held(h)], open := s.open + {h})
    case OpenFailed(c) => s.(calls := s.calls - {c}, sem := s.sem - 1)
    case PutBack(c) => s.(idle := s.idle + [s.calls[c].handle], calls := s.calls[c := Returning])
    case FindFull(c) => s.(calls := s.calls[c := Closing(s.calls[c].handle)])
    case DeclareDead(c) => s.(calls := s.calls[c := Closing(s.calls[c].handle)])
    case Closed(c, ok) => Close(s, s.calls[c].handle, ok).(calls := s.calls[c := Returning])
    case GivePermit(c) => s.(calls := s.calls - {c}, sem := s.sem - 1)
    case DrainTake(c) => s.(idle := s.idle[1..], calls := s.calls[c := Draining(s.idle[0])])
    case DrainClosed(c, ok) => Close(s, s.calls[c].handle, ok).(calls := s.calls - {c})
    case Restart => s.(open := {}, leaked := {})
  }

  predicate Initial(s: State) {
    s == State(s.capacity, 0, [], map[], {}, {}) && s.capacity >= 1
  }

  // ---- What every interleaving keeps ------------------------------------------------------

  predicate HasPermit(place: Place) {
    !place.Draining?
  }

  /** The call owns a session or is about to. */
  predicate TakesRoom(place: Place) {
    place.Opening? || place.Held? || place.Closing?
  }

  predicate HasHandle(place: Place) {
    place.Held? || place.Closing? || place.Draining?
  }

  function Permits(calls: map<Caller, Place>): set<Caller> {
    set c | c in calls && HasPermit(calls[c])
  }

  function Rooms(calls: map<Caller, Place>): set<Caller> {
    set c | c in calls && TakesRoom(calls[c])
  }

  function Holders(calls: map<Caller, Place>): set<Caller> {
    set c | c in calls && HasHandle(calls[c])
  }

  function Drainers(calls: map<Caller, Place>): set<Caller> {
    set c | c in calls && calls[c].Draining?
  }

  function Openers(calls: map<Caller, Place>): set<Caller> {
    set c | c in calls && calls[c].Opening?
  }

  /** Idle, used, opened and closed sessions together fit the capacity. */
  ghost predicate WithinCapacity(s: State) {
    && s.sem == |Permits(s.calls)| <= s.capacity
    && |s.idle| + |Rooms(s.calls)| <= s.capacity
  }

  /** No session is in two places: the channel, and the goroutines that own one, share none. */
  ghost predicate Exclusive(s: State) {
    && (forall i, j | 0 <= i < j < |s.idle| :: s.idle[i] != s.idle[j])
    && (forall c, d | c in s.calls && d in s.calls && c != d && HasHandle(s.calls[c]) && HasHandle(s.calls[d]) ::
          s.calls[c].handle != s.calls[d].handle)
    && (forall c | c in s.calls && HasHandle(s.calls[c]) :: s.calls[c].handle !in s.idle)
  }

  /** Every session in the pool or owned is open, and its close has not failed. */
  ghost predicate AllOpen(s: State) {
    && (forall c | c in s.calls && HasHandle(s.calls[c]) :: s.calls[c].handle in s.open - s.leaked)
    && (forall h <- s.idle :: h in s.open - s.leaked)
    && s.leaked <= s.open
  }

  function HandlesOf(calls: map<Caller, Place>, holders: set<Caller>): set<Handle>
    requires holders <= Holders(calls)
  {
    set c | c in holders :: calls[c].handle
  }

  function Handles(calls: map<Caller, Place>): set<Handle> {
    HandlesOf(calls, Holders(calls))
  }

  function Members(idle: seq<Handle>): set<Handle> {
    set h | h in idle
  }

  /** The number of a session that is idle or owned. */
  predicate InPool(s: State, h: Handle) {
    h in s.idle || h in Handles(s.calls)
  }

  /** Whatever the token has open is idle, owned or leaked. */
  ghost predicate Covered(s: State) {
    && (forall h <- s.open :: InPool(s, h) || h in s.leaked)
    && s.leaked <= s.open
  }

  /** Until a restart, the token's open sessions are exactly the idle, the owned and the leaked ones. */
  ghost predicate OpenCounted(s: State) {
    |s.open| == |s.idle| + |Holders(s.calls)| + |s.leaked|
  }

  function One(b: bool): int {
    if b then 1 else 0
  }

  /** Caller c moves to a place, or leaves. */
  function Move(calls: map<Caller, Place>, c: Caller, place: Option<Place>): map<Caller, Place> {
    if place.Some? then calls[c := place.value] else calls - {c}
  }

  /** Two sets that agree but for c. */
  lemma Resized(before: set<Caller>, after: set<Caller>, rest: set<Caller>, c: Caller)
    requires c !in rest && before - {c} == rest && after - {c} == rest
    ensures |after| == |before| - One(c in before) + One(c in after)
  {
    assert before == if c in before then rest + {c} else rest;
    assert after == if c in after then rest + {c} else rest;
  }

  lemma PermitsResized(calls: map<Caller, Place>, c: Caller, place: Option<Place>)
    ensures |Permits(Move(calls, c, place))| ==
            |Permits(calls)| - One(c in Permits(calls)) + One(place.Some? && HasPermit(place.value))
  {
    Resized(Permits(calls), Permits(Move(calls, c, place)), Permits(calls) - {c}, c);
  }

  lemma RoomsResized(calls: map<Caller, Place>, c: Caller, place: Option<Place>)
    ensures |Rooms(Move(calls, c, place))| ==
            |Rooms(calls)| - One(c in Rooms(calls)) + One(place.Some? && TakesRoom(place.value))
  {
    Resized(Rooms(calls), Rooms(Move(calls, c, place)), Rooms(calls) - {c}, c);
  }

  lemma HoldersResized(calls: map<Caller, Place>, c: Caller, place: Option<Place>)
    ensures |Holders(Move(calls, c, place))| ==
            |Holders(calls)| - One(c in Holders(calls)) + One(place.Some? && HasHandle(place.value))
  {
    Resized(Holders(calls), Holders(Move(calls, c, place)), Holders(calls) - {c}, c);
  }

  function PlaceAfter(s: State, step: Step): Option<Place>
    requires Enabled(s, step) && !step.Restart?
  {
    var calls := Next(s, step).calls;
    if step.c in calls then Some(calls[step.c]) else None
  }

  lemma StepMoves(s: State, step: Step)
    requires Enabled(s, step) && !step.Restart?
    ensures Next(s, step).calls == Move(s.calls, step.c, PlaceAfter(s, step))
  {
  }

  /** Opening, owning or closing a session needs a permit. */
  lemma RoomNeedsPermit(s: State)
    ensures |Rooms(s.calls)| <= |Permits(s.calls)|
  {
    SubsetSize(Rooms(s.calls), Permits(s.calls));
  }

  lemma {:induction false} SubsetSize(a: set<Caller>, b: set<Caller>)
    requires a <= b
    ensures |a| <= |b|
  {
    assert a + (b - a) == b;
  }

  lemma StepWithinCapacity(s: State, step: Step)
    requires WithinCapacity(s) && Enabled(s, step)
    ensures WithinCapacity(Next(s, step))
  {
    if !step.Restart? {
      StepMoves(s, step);
      PermitsResized(s.calls, step.c, PlaceAfter(s, step));
      RoomsResized(s.calls, step.c, PlaceAfter(s, step));
      RoomNeedsPermit(Next(s, step));
    }
  }

  /** The token, having forgotten it, gives out the number of a session the pool still has. */
  predicate Reuses(s: State, step: Step) {
    step.Opened? && InPool(s, step.h)
  }

  /** A step keeps handles unshared exactly when it does not reuse one. */
  lemma StepExclusive(s: State, step: Step)
    requires Exclusive(s) && Enabled(s, step)
    ensures Exclusive(Next(s, step)) <==> !Reuses(s, step)
  {
    if step.TakeIdle? || step.DrainTake? {
      TakingIsExclusive(s, step);
    } else if step.PutBack? {
      PuttingBackIsExclusive(s, step);
    } else if step.Opened? {
      OpeningIsExclusive(s, step);
    } else {
      OtherwiseExclusive(s, step);
    }
  }

  /** The session leaves the channel. */
  lemma TakingIsExclusive(s: State, step: Step)
    requires Exclusive(s) && Enabled(s, step) && (step.TakeIdle? || step.DrainTake?)
    ensures Exclusive(Next(s, step))
  {
  }

  /** The session enters the channel. */
  lemma PuttingBackIsExclusive(s: State, step: Step)
    requires Exclusive(s) && Enabled(s, step) && step.PutBack?
    ensures Exclusive(Next(s, step))
  {
  }

  /** The session is new to the token; it may not be new to the pool. */
  lemma OpeningIsExclusive(s: State, step: Step)
    requires Exclusive(s) && Enabled(s, step) && step.Opened?
    ensures Exclusive(Next(s, step)) <==> !Reuses(s, step)
  {
    var n := Next(s, step);
    assert step.c in n.calls && n.calls[step.c] == Held(step.h);
    if step.h in Handles(s.calls) {
      var d :| d in Holders(s.calls) && s.calls[d].handle == step.h;
      assert d in n.calls && n.calls[d] == s.calls[d];
    } else {
      forall d | d in s.calls && HasHandle(s.calls[d])
        ensures s.calls[d].handle in Handles(s.calls)
      {
        HolderHasHandle(s.calls, d);
      }
    }
  }

  /** The caller keeps its session or gives it up. */
  lemma OtherwiseExclusive(s: State, step: Step)
    requires Exclusive(s) && Enabled(s, step) && !(step.TakeIdle? || step.DrainTake? || step.PutBack? || step.Opened?)
    ensures Exclusive(Next(s, step))
  {
  }

  /** As long as every session in the pool is open, none can be reused. */
  lemma OpenIsNotReused(s: State, step: Step)
    requires AllOpen(s) && Enabled(s, step)
    ensures !Reuses(s, step)
  {
  }

  lemma StepAllOpen(s: State, step: Step)
    requires Exclusive(s) && AllOpen(s) && Enabled(s, step) && !step.Restart?
    ensures AllOpen(Next(s, step))
  {
  }

  /** Closed or leaked, one session leaves the books. */
  lemma CloseCounts(s: State, h: Handle, ok: bool)
    requires h in s.open - s.leaked
    ensures var n := Close(s, h, ok);
            |n.open| - |n.leaked| == |s.open| - |s.leaked| - 1
  {
  }

  lemma StepOpenCounted(s: State, step: Step)
    requires AllOpen(s) && OpenCounted(s) && Enabled(s, step) && !step.Restart?
    ensures OpenCounted(Next(s, step))
  {
    StepMoves(s, step);
    HoldersResized(s.calls, step.c, PlaceAfter(s, step));
    if step.Closed? || step.DrainClosed? {
      CloseCounts(s, s.calls[step.c].handle, step.ok);
    }
  }

  /** The handle of caller c after the move is the only one that may have left. */
  lemma HandlesMoved(calls: map<Caller, Place>, c: Caller, place: Option<Place>, h: Handle)
    requires h in Handles(calls) && !(c in Holders(calls) && calls[c].handle == h)
    ensures h in Handles(Move(calls, c, place))
  {
    var d :| d in Holders(calls) && calls[d].handle == h;
    assert d in Holders(Move(calls, c, place));
  }

  lemma HolderHasHandle(calls: map<Caller, Place>, c: Caller)
    requires c in calls && HasHandle(calls[c])
    ensures calls[c].handle in Handles(calls)
  {
    assert c in Holders(calls);
  }

  lemma StepCovered(s: State, step: Step)
    requires Covered(s) && Enabled(s, step)
    ensures Covered(Next(s, step))
  {
    if !step.Restart? {
      StepMoves(s, step);
      var n, c := Next(s, step), step.c;
      forall h <- n.open
        ensures InPool(n, h) || h in n.leaked
      {
        if c in n.calls && HasHandle(n.calls[c]) {
          HolderHasHandle(n.calls, c);
        }
        if h in Handles(s.calls) && !(c in Holders(s.calls) && s.calls[c].handle == h) {
          HandlesMoved(s.calls, c, PlaceAfter(s, step), h);
        }
      }
    }
  }

  // ---- Every run --------------------------------------------------------------------------

  /** What holds whatever the token does. */
  ghost predicate Inv(s: State) {
    WithinCapacity(s) && Covered(s)
  }

  /** What holds besides, until the token restarts. */
  ghost predicate Known(s: State) {
    Exclusive(s) && AllOpen(s) && OpenCounted(s)
  }

  ghost predicate Leads(s: State, steps: seq<Step>, t: State)
    decreases |steps|
  {
    if steps == [] then s == t
    else Enabled(s, steps[0]) && Leads(Next(s, steps[0]), steps[1..], t)
  }

  ghost predicate Reachable(s: State) {
    exists s0: State, steps: seq<Step> :: Initial(s0) && Leads(s0, steps, s)
  }

  lemma StepInv(s: State, step: Step)
    requires Inv(s) && Enabled(s, step)
    ensures Inv(Next(s, step))
  {
    StepWithinCapacity(s, step);
    StepCovered(s, step);
  }

  lemma StepKnown(s: State, step: Step)
    requires Known(s) && Enabled(s, step) && !step.Restart?
    ensures Known(Next(s, step)) && !Reuses(s, step)
  {
    OpenIsNotReused(s, step);
    StepExclusive(s, step);
    StepAllOpen(s, step);
    StepOpenCounted(s, step);
  }

  lemma {:induction false} LeadsInv(s: State, steps: seq<Step>, t: State)
    requires Inv(s) && Leads(s, steps, t)
    ensures Inv(t) && t.capacity == s.capacity
    decreases |steps|
  {
    if steps != [] {
      StepInv(s, steps[0]);
      LeadsInv(Next(s, steps[0]), steps[1..], t);
    }
  }

  lemma ReachableInv(s: State)
    requires Reachable(s)
    ensures Inv(s)
  {
    var s0: State, steps: seq<Step> :| Initial(s0) && Leads(s0, steps, s);
    LeadsInv(s0, steps, s);
  }

  /** Idle, held, opening and closing sessions together never exceed the capacity of the pool. */
  lemma CapacityHolds(s: State)
    requires Reachable(s)
    ensures |s.idle| + |Rooms(s.calls)| <= s.capacity
    ensures s.sem <= s.capacity
  {
    ReachableInv(s);
  }

  lemma Disjoint(a: set<Caller>, b: set<Caller>, both: set<Caller>)
    requires a !! b && both == a + b
    ensures |both| == |a| + |b|
  {
  }

  lemma CountedTwice(calls: map<Caller, Place>)
    ensures |Rooms(calls)| + |Drainers(calls)| == |Holders(calls)| + |Openers(calls)|
  {
    var both := set c | c in calls && (TakesRoom(calls[c]) || HasHandle(calls[c]));
    Disjoint(Rooms(calls), Drainers(calls), both);
    Disjoint(Holders(calls), Openers(calls), both);
  }

  /**
   The sessions open on the token exceed the capacity by at most the drains that sit between
   receiving a session and closing it and the sessions whose close failed; without either, the
   capacity bounds them.
   */
  lemma OpenSessionsBounded(s: State)
    requires Reachable(s)
    ensures |s.open| + |Openers(s.calls)| <= s.capacity + |Drainers(s.calls)| + |s.leaked|
    ensures Drainers(s.calls) == {} && s.leaked == {} ==> |s.open| <= s.capacity
  {
    ReachableInv(s);
    CountedTwice(s.calls);
    CoveredIsCounted(s);
  }

  lemma {:induction false} FewHandles(calls: map<Caller, Place>, holders: set<Caller>)
    requires holders <= Holders(calls)
    ensures |HandlesOf(calls, holders)| <= |holders|
    decreases |holders|
  {
    if c :| c in holders {
      var rest := holders - {c};
      FewHandles(calls, rest);
      assert HandlesOf(calls, holders) == HandlesOf(calls, rest) + {calls[c].handle};
    }
  }

  lemma {:induction false} FewIdle(idle: seq<Handle>)
    ensures |Members(idle)| <= |idle|
  {
    if idle != [] {
      FewIdle(idle[1..]);
      assert Members(idle) == Members(idle[1..]) + {idle[0]};
    }
  }

  lemma {:induction false} SubsetHandles(a: set<Handle>, b: set<Handle>)
    requires a <= b
    ensures |a| <= |b|
  {
    assert a + (b - a) == b;
  }

  lemma UnionSize(a: set<Handle>, b: set<Handle>)
    ensures |a + b| <= |a| + |b|
  {
    assert a + b == a + (b - a);
    SubsetHandles(b - a, b);
  }

  /** Sessions open on the token are at most the idle, the owned and the leaked ones. */
  lemma CoveredIsCounted(s: State)
    requires Covered(s)
    ensures |s.open| <= |s.idle| + |Holders(s.calls)| + |s.leaked|
  {
    var idle := Members(s.idle);
    var owned := Handles(s.calls);
    FewIdle(s.idle);
    FewHandles(s.calls, Holders(s.calls));
    SubsetHandles(s.open, idle + owned + s.leaked);
    UnionSize(idle, owned);
    UnionSize(idle + owned, s.leaked);
  }

  /** Whether sessions may be drained while the pool is in use, and whether C_CloseSession may fail. */
  datatype Policy = Policy(drains: bool, failures: bool)

  ghost predicate Allowed(policy: Policy, step: Step) {
    && (step.DrainTake? ==> policy.drains)
    && ((step.Closed? || step.DrainClosed?) && !step.ok ==> policy.failures)
  }

  /** Some run of steps the policy allows leads from an empty pool to s. */
  ghost predicate ReachableUnder(policy: Policy, s: State) {
    exists s0: State, steps: seq<Step> ::
      Initial(s0) && s0.capacity == s.capacity && Leads(s0, steps, s) && forall step <- steps :: Allowed(policy, step)
  }

  ghost predicate AlwaysBounded(capacity: nat, policy: Policy) {
    forall s | ReachableUnder(policy, s) && s.capacity == capacity :: |s.open| <= capacity
  }

  /**
   Exactly when nothing is drained and no close fails does the capacity bound the sessions open
   on the token, whatever the capacity.
   */
  lemma BoundedExactlyWithoutDrains(capacity: nat, policy: Policy)
    requires capacity >= 1
    ensures AlwaysBounded(capacity, policy) <==> !policy.drains && !policy.failures
  {
    if policy.drains {
      var s := DrainGap(capacity, policy);
    } else if policy.failures {
      var s := LeakGap(capacity, policy);
    } else {
      forall s | ReachableUnder(policy, s) && s.capacity == capacity
        ensures |s.open| <= capacity
      {
        var s0: State, steps: seq<Step> :|
          Initial(s0) && s0.capacity == s.capacity && Leads(s0, steps, s) && forall step <- steps :: Allowed(policy, step);
        assert Reachable(s);
        NeitherDrainedNorLeaked(policy, s0, steps, s);
        OpenSessionsBounded(s);
      }
    }
  }

  lemma {:induction false} NeitherDrainedNorLeaked(policy: Policy, s: State, steps: seq<Step>, t: State)
    requires Drainers(s.calls) == {} && s.leaked == {} && Leads(s, steps, t)
    requires !policy.drains && !policy.failures && forall step <- steps :: Allowed(policy, step)
    ensures Drainers(t.calls) == {} && t.leaked == {}
    decreases |steps|
  {
    if steps != [] {
      assert steps[0] in steps;
      StepDrainsNothing(policy, s, steps[0]);
      NeitherDrainedNorLeaked(policy, Next(s, steps[0]), steps[1..], t);
    }
  }

  lemma StepDrainsNothing(policy: Policy, s: State, step: Step)
    requires Drainers(s.calls) == {} && s.leaked == {} && Enabled(s, step)
    requires !policy.drains && !policy.failures && Allowed(policy, step)
    ensures Drainers(Next(s, step).calls) == {} && Next(s, step).leaked == {}
  {
    assert forall c <- s.calls :: s.calls[c].Draining? ==> c in Drainers(s.calls);
  }

  /**
   A drain that has received a session and not yet closed it lets the pool open as many others
   as the capacity allows, so the token sees one more.
   */
  lemma DrainGap(capacity: nat, policy: Policy) returns (s: State)
    requires capacity >= 1 && policy.drains
    ensures ReachableUnder(policy, s) && s.capacity == capacity && |s.open| == capacity + 1
  {
    var s3 := OneOpened(capacity, policy);
    var s4 := Extend(policy, s3, PutBack(0));
    var s5 := Extend(policy, s4, GivePermit(0));
    var s6 := Extend(policy, s5, DrainTake(0));
    s := Fill(policy, s6, capacity);
  }

  /** A session whose close failed stays open on the token without a place in the pool. */
  lemma LeakGap(capacity: nat, policy: Policy) returns (s: State)
    requires capacity >= 1 && policy.failures
    ensures ReachableUnder(policy, s) && s.capacity == capacity && |s.open| == capacity + 1
  {
    var s3 := OneOpened(capacity, policy);
    var s4 := Extend(policy, s3, DeclareDead(0));
    var s5 := Extend(policy, s4, Closed(0, false));
    var s6 := Extend(policy, s5, GivePermit(0));
    s := Fill(policy, s6, capacity);
  }

  lemma OneOpened(capacity: nat, policy: Policy) returns (s: State)
    requires capacity >= 1
    ensures ReachableUnder(policy, s) && s == State(capacity, 1, [], map[0 := Held(0)], {0}, {})
  {
    var s0 := State(capacity, 0, [], map[], {}, {});
    assert Leads(s0, [], s0);
    var s1 := Extend(policy, s0, TakePermit(0));
    var s2 := Extend(policy, s1, FindNoIdle(0));
    s := Extend(policy, s2, Opened(0, 0));
  }

  /** Callers 1 to k each open the session of their number. */
  lemma {:induction false} Fill(policy: Policy, s: State, k: nat) returns (t: State)
    requires ReachableUnder(policy, s) && k <= s.capacity
    requires s.sem == 0 && s.idle == [] && s.open == {0} && forall c <- s.calls :: c == 0
    ensures ReachableUnder(policy, t) && t.capacity == s.capacity && t.sem == k && t.idle == []
    ensures |t.open| == k + 1
    ensures (forall h <- t.open :: h <= k) && (forall c <- t.calls :: c <= k)
  {
    if k == 0 {
      t := s;
    } else {
      var t0 := Fill(policy, s, k - 1);
      var t1 := Extend(policy, t0, TakePermit(k));
      var t2 := Extend(policy, t1, FindNoIdle(k));
      t := Extend(policy, t2, Opened(k, k));
    }
  }

  lemma Extend(policy: Policy, s: State, step: Step) returns (n: State)
    requires ReachableUnder(policy, s) && Enabled(s, step) && Allowed(policy, step)
    ensures ReachableUnder(policy, n) && n == Next(s, step)
  {
    var s0: State, steps: seq<Step> :|
      Initial(s0) && s0.capacity == s.capacity && Leads(s0, steps, s) && forall step <- steps :: Allowed(policy, step);
    n := Next(s, step);
    LeadsOn(s0, steps, s, step);
    assert forall other <- steps + [step] :: Allowed(policy, other);
  }

  lemma {:induction false} LeadsOn(s: State, steps: seq<Step>, t: State, step: Step)
    requires Leads(s, steps, t) && Enabled(t, step)
    ensures Leads(s, steps + [step], Next(t, step))
    decreases |steps|
  {
    if steps == [] {
      assert [step][1..] == [];
    } else {
      LeadsOn(Next(s, steps[0]), steps[1..], t, step);
      assert (steps + [step])[1..] == steps[1..] + [step];
    }
  }

  // ---- Whose session it is ----------------------------------------------------------------

  /** No step of the run gives out a number the pool still has. */
  ghost predicate NeverReuses(s: State, steps: seq<Step>)
    decreases |steps|
  {
    steps != [] && Enabled(s, steps[0]) ==> !Reuses(s, steps[0]) && NeverReuses(Next(s, steps[0]), steps[1..])
  }

  /** No session is shared at any moment of the run. */
  ghost predicate AlwaysExclusive(s: State, steps: seq<Step>)
    decreases |steps|
  {
    Exclusive(s) && (steps != [] && Enabled(s, steps[0]) ==> AlwaysExclusive(Next(s, steps[0]), steps[1..]))
  }

  /** Sessions stay unshared on a run exactly when a restarted token reuses no number the pool still has. */
  lemma {:induction false} UnsharedExactly(s: State, steps: seq<Step>, t: State)
    requires Exclusive(s) && Leads(s, steps, t)
    ensures AlwaysExclusive(s, steps) <==> NeverReuses(s, steps)
    ensures NeverReuses(s, steps) ==> Exclusive(t)
    decreases |steps|
  {
    if steps != [] {
      StepExclusive(s, steps[0]);
      if !Reuses(s, steps[0]) {
        UnsharedExactly(Next(s, steps[0]), steps[1..], t);
      }
    }
  }

  /** Without a restart nothing is reused, and the books are exact. */
  lemma {:induction false} NothingReusedWithoutRestart(s: State, steps: seq<Step>, t: State)
    requires Known(s) && Leads(s, steps, t) && Restart !in steps
    ensures NeverReuses(s, steps) && Known(t)
    decreases |steps|
  {
    if steps != [] {
      assert steps[0] in steps;
      StepKnown(s, steps[0]);
      NothingReusedWithoutRestart(Next(s, steps[0]), steps[1..], t);
    }
  }

  /** No session handle is ever shared on such runs: not between two goroutines, nor with the idle channel. */
  lemma NoSharedHandle(s0: State, steps: seq<Step>, s: State, c: Caller, d: Caller)
    requires Initial(s0) && Leads(s0, steps, s) && (Restart in steps ==> NeverReuses(s0, steps))
    requires c in s.calls && HasHandle(s.calls[c])
    ensures s.calls[c].handle !in s.idle
    ensures d in s.calls && d != c && HasHandle(s.calls[d]) ==> s.calls[d].handle != s.calls[c].handle
  {
    if Restart !in steps {
      NothingReusedWithoutRestart(s0, steps, s);
    }
    UnsharedExactly(s0, steps, s);
  }

  /**
   Otherwise one caller may close the session of another: a restarted token gives out a number
   whose old holder then finds its session dead and closes it.
   */
  lemma ForeignClose(capacity: nat) returns (s: State)
    requires capacity >= 2
    ensures Reachable(s) && s.capacity == capacity && At(s, 1, Held(0)) && 0 !in s.open
  {
    var policy := Policy(false, false);
    var s3 := OneOpened(capacity, policy);
    var s4 := Extend(policy, s3, Restart);
    var s5 := Extend(policy, s4, TakePermit(1));
    var s6 := Extend(policy, s5, FindNoIdle(1));
    var s7 := Extend(policy, s6, Opened(1, 0));
    var s8 := Extend(policy, s7, DeclareDead(0));
    s := Extend(policy, s8, Closed(0, true));
  }

  lemma StillRoom(s: State, c: Caller)
    requires WithinCapacity(s) && c in s.calls && s.calls[c].Held?
    ensures |s.idle| < s.capacity
  {
    assert c in Rooms(s.calls);
  }

  /** The "pool is full" branch of release is dead code. */
  lemma PoolNeverFull(s: State, c: Caller)
    requires Reachable(s)
    ensures !Enabled(s, FindFull(c))
  {
    ReachableInv(s);
    if c in s.calls && s.calls[c].Held? {
      StillRoom(s, c);
    }
  }

  lemma StillPermitted(s: State, c: Caller)
    requires WithinCapacity(s) && (At(s, c, Opening) || At(s, c, Returning))
    ensures s.sem > 0
  {
    assert c in Permits(s.calls);
  }

  /** Giving a permit back never blocks. */
  lemma PermitCanBeReturned(s: State, c: Caller)
    requires Reachable(s)
    ensures At(s, c, Opening) ==> Enabled(s, OpenFailed(c))
    ensures At(s, c, Returning) ==> Enabled(s, GivePermit(c))
  {
    ReachableInv(s);
    if At(s, c, Opening) || At(s, c, Returning) {
      StillPermitted(s, c);
    }
  }

  // ---- The size of the pool ---------------------------------------------------------------

  datatype SlotInfo = SlotInfo(id: nat, maxSessions: nat)

  /** make(chan struct{}, size) in newSessionPool. */
  function NewPool(size: int): (s: State)
    ensures Initial(s)
    ensures s.capacity as int == if size < 1 then 1 else size
  {
    State(if size < 1 then 1 else size, 0, [], map[], {}, {})
  }

  ghost predicate ListedOnce(slots: seq<SlotInfo>, slot: SlotInfo, slotID: nat) {
    slot.id == slotID && forall other <- slots :: other.id == slotID ==> other == slot
  }

  function Clamp(configured: int, tokenLimit: nat): int {
    if configured > tokenLimit then tokenLimit else configured
  }

  /** poolSize; `slots` is None when the slot list could not be read. */
  method PoolSize(maxSession: int, slots: Option<seq<SlotInfo>>, slotID: nat) returns (size: int)
    requires maxSession >= 1
    ensures 1 <= size <= maxSession
    ensures size < maxSession ==> slots.Some? && SlotInfo(slotID, size) in slots.value
    ensures size == maxSession && slots.Some? ==>
              forall slot <- slots.value :: slot.id == slotID && slot.maxSessions > 0 ==> size <= slot.maxSessions
    ensures slots.Some? ==> forall slot <- slots.value ::
                slot.maxSessions > 0 && ListedOnce(slots.value, slot, slotID) ==> size == Clamp(maxSession, slot.maxSessions)
  {
    size := maxSession;
    if slots.None? {
      return;
    }
    var i := 0;
    while i < |slots.value|
      invariant 0 <= i <= |slots.value| && size == maxSession
      invariant forall k | 0 <= k < i :: var slot := slots.value[k];
                                         slot.id == slotID && slot.maxSessions > 0 ==> maxSession <= slot.maxSessions
    {
      var slot := slots.value[i];
      if slot.id == slotID && slot.maxSessions > 0 && maxSession > slot.maxSessions {
        assert slot == SlotInfo(slotID, slot.maxSessions);
        return slot.maxSessions;
      }
      i := i + 1;
    }
  }

  /**
   A pool sized by poolSize, on a token listed once with a non-zero session limit: at every
   moment of every run its sessions stay within both the configured and the token's maximum.
   */
  lemma PoolWithinTokenLimit(maxSession: int, slot: SlotInfo, size: int, steps: seq<Step>, s: State)
    requires maxSession >= 1 && slot.maxSessions > 0
    requires size == Clamp(maxSession, slot.maxSessions)
    requires Leads(NewPool(size), steps, s)
    ensures |s.idle| + |Rooms(s.calls)| <= maxSession
    ensures |s.idle| + |Rooms(s.calls)| <= slot.maxSessions
    ensures Drainers(s.calls) == {} && s.leaked == {} ==> |s.open| <= maxSession && |s.open| <= slot.maxSessions
  {
    LeadsInv(NewPool(size), steps, s);
    OpenSessionsBounded(s);
  }

  // ---- The object -------------------------------------------------------------------------

  /** A sessionPool, the goroutines inside it and its token; one method per channel operation or token call. */
  class Pool {
    const capacity: nat
    var sem: nat
    var idle: seq<Handle>
    var calls: map<Caller, Place>
    var open: set<Handle>
    var leaked: set<Handle>

    ghost function View(): State
      reads this
    {
      State(capacity, sem, idle, calls, open, leaked)
    }

    ghost predicate Valid()
      reads this
    {
      Inv(View())
    }

    constructor (size: int)
      ensures Valid() && View() == NewPool(size)
    {
      capacity := if size < 1 then 1 else size;
      sem, idle, calls, open, leaked := 0, [], map[], {}, {};
    }

    /** The first select of acquire; it blocks while the semaphore is full. */
    method TakePermit(c: Caller)
      requires Valid() && Enabled(View(), Step.TakePermit(c))
      modifies this
      ensures Valid() && View() == Next(old(View()), Step.TakePermit(c))
    {
      StepInv(View(), Step.TakePermit(c));
      sem := sem + 1;
      calls := calls[c := Permitted];
    }

    /** The second select of acquire. */
    method LookForIdle(c: Caller) returns (session: Option<Handle>)
      requires Valid() && At(View(), c, Permitted)
      modifies this
      ensures Valid() && View() == Next(old(View()), if old(idle) != [] then TakeIdle(c) else FindNoIdle(c))
      ensures session == if old(idle) != [] then Some(old(idle)[0]) else None
    {
      StepInv(View(), if idle != [] then TakeIdle(c) else FindNoIdle(c));
      if idle != [] {
        session := Some(idle[0]);
        idle := idle[1..];
        calls := calls[c := Held(session.value)];
      } else {
        session := None;
        calls := calls[c := Opening];
      }
    }

    /** OpenSession and the rest of acquire; a failed open gives the permit back. */
    method OpenSession(c: Caller, answer: Option<Handle>) returns (session: Option<Handle>)
      requires Valid() && At(View(), c, Opening) && (answer.Some? ==> answer.value !in open)
      modifies this
      ensures Enabled(old(View()), if answer.Some? then Opened(c, answer.value) else OpenFailed(c))
      ensures Valid() && View() == Next(old(View()), if answer.Some? then Opened(c, answer.value) else OpenFailed(c))
      ensures session == answer
    {
      StillPermitted(View(), c);
      StepInv(View(), if answer.Some? then Opened(c, answer.value) else OpenFailed(c));
      if answer.None? {
        sem := sem - 1;
        calls := calls - {c};
        return None;
      }
      open := open + {answer.value};
      calls := calls[c := Held(answer.value)];
      session := answer;
    }

    /** release up to the disposal of the session: a dead one is closed, another one finds room in the channel. */
    method Dispose(c: Caller, dead: bool)
      requires Valid() && c in calls && calls[c].Held?
      modifies this
      ensures Enabled(old(View()), if dead then DeclareDead(c) else PutBack(c))
      ensures Valid() && View() == Next(old(View()), if dead then DeclareDead(c) else PutBack(c))
    {
      StillRoom(View(), c);
      StepInv(View(), if dead then DeclareDead(c) else PutBack(c));
      var session := calls[c].handle;
      if dead {
        calls := calls[c := Closing(session)];
      } else {
        idle := idle + [session];
        calls := calls[c := Returning];
      }
    }

    /** C_CloseSession. */
    method EndSession(session: Handle, ok: bool)
      modifies this`open, this`leaked
      ensures View() == Close(old(View()), session, ok)
    {
      if session in open {
        if ok {
          open, leaked := open - {session}, leaked - {session};
        } else {
          leaked := leaked + {session};
        }
      }
    }

    /** The token restarts; the pool does not notice. */
    method TokenRestarts()
      requires Valid()
      modifies this`open, this`leaked
      ensures Valid() && View() == Next(old(View()), Restart)
    {
      StepInv(View(), Restart);
      open, leaked := {}, {};
    }

    method CloseSession(c: Caller, ok: bool)
      requires Valid() && Enabled(View(), Closed(c, ok))
      modifies this
      ensures Valid() && View() == Next(old(View()), Closed(c, ok))
    {
      StepInv(View(), Closed(c, ok));
      var session := calls[c].handle;
      EndSession(session, ok);
      calls := calls[c := Returning];
    }

    /** The deferred receive of release. */
    method GivePermit(c: Caller)
      requires Valid() && At(View(), c, Returning)
      modifies this
      ensures Enabled(old(View()), Step.GivePermit(c))
      ensures Valid() && View() == Next(old(View()), Step.GivePermit(c))
    {
      StillPermitted(View(), c);
      StepInv(View(), Step.GivePermit(c));
      sem := sem - 1;
      calls := calls - {c};
    }

    /** A pass of the loop of drain; it ends when no session is idle. */
    method DrainOne(c: Caller) returns (session: Option<Handle>)
      requires Valid() && c !in calls
      modifies this
      ensures session.Some? <==> old(idle) != []
      ensures Valid() && View() == if session.Some? then Next(old(View()), DrainTake(c)) else old(View())
    {
      if idle == [] {
        return None;
      }
      StepInv(View(), DrainTake(c));
      session := Some(idle[0]);
      idle := idle[1..];
      calls := calls[c := Draining(session.value)];
    }

    method DrainClose(c: Caller, ok: bool)
      requires Valid() && Enabled(View(), DrainClosed(c, ok))
      modifies this
      ensures Valid() && View() == Next(old(View()), DrainClosed(c, ok))
    {
      StepInv(View(), DrainClosed(c, ok));
      var session := calls[c].handle;
      EndSession(session, ok);
      calls := calls - {c};
    }
  }
}
