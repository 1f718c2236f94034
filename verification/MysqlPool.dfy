/** The connection pool as steps of any number of threads: a semaphore, a mutex, and a release that takes only the former. */
module MysqlPool {
  import opened Options

  const CSS_POOL_SIZE := 10

  type Thread = nat

  /** Where a thread is in css_mysql_get or css_mysql_release. */
  datatype Place =
    | Outside                    // between calls, holding nothing
    | AtWait                     // about to wait for the semaphore
    | AtLock                     // has a permit, about to lock the mutex
    | Testing(i: nat)            // holds the mutex, about to test slot i
    | Claiming(i: nat)           // holds the mutex, has found slot i free
    | AtUnlock(t: Option<nat>)   // holds the mutex, the scan is over
    | Returned(t: Option<nat>)   // has what css_mysql_get returned; None is NULL
    | AtPost                     // has freed its slot, about to post the semaphore

  datatype State = State(
    permits: nat,
    mutex: Option<Thread>,
    inUsing: seq<bool>,
    places: map<Thread, Place>)

  function PlaceOf(s: State, t: Thread): Place
  {
    if t in s.places then s.places[t] else Outside
  }

  function Initial(): State
  {
    State(CSS_POOL_SIZE, None, seq(CSS_POOL_SIZE, _ => false), map[])
  }

  /** css_mysql_init: the loop that marks every slot free. */
  method Init() returns (s: State)
    ensures s == Initial()
  {
    var inUsing: seq<bool> := [];
    var i := 0;
    while i < CSS_POOL_SIZE
      invariant i <= CSS_POOL_SIZE
      invariant |inUsing| == i && forall k :: 0 <= k < i ==> !inUsing[k]
    {
      inUsing := inUsing + [false];
      i := i + 1;
    }
    s := State(CSS_POOL_SIZE, None, inUsing, map[]);
  }

  // ---- the steps

  /** Thread `t` is not blocked. */
  predicate CanStep(s: State, t: Thread)
  {
    match PlaceOf(s, t)
    case AtWait => s.permits > 0
    case AtLock => s.mutex == None
    case _ => true
  }

  function Move(s: State, t: Thread, p: Place): State
  {
    s.(places := s.places[t := p])
  }

  /** The next atomic step of thread `t`. */
  function Step(s: State, t: Thread): State
    requires CanStep(s, t) && |s.inUsing| == CSS_POOL_SIZE
  {
    match PlaceOf(s, t)
    case Outside => Move(s, t, AtWait)
    case AtWait => Move(s.(permits := s.permits - 1), t, AtLock)
    case AtLock => Move(s.(mutex := Some(t)), t, Testing(0))
    case Testing(i) =>
      if i >= CSS_POOL_SIZE then Move(s, t, AtUnlock(None))
      else if !s.inUsing[i] then Move(s, t, Claiming(i))
      else Move(s, t, Testing(i + 1))
    case Claiming(i) =>
      if i < CSS_POOL_SIZE then Move(s.(inUsing := s.inUsing[i := true]), t, AtUnlock(Some(i))) else s
    case AtUnlock(c) => Move(s.(mutex := None), t, Returned(c))
    case Returned(c) =>
      if c.Some? && c.value < CSS_POOL_SIZE then Move(s.(inUsing := s.inUsing[c.value := false]), t, AtPost)
      else Move(s, t, Outside)
    case AtPost => Move(s.(permits := s.permits + 1), t, Outside)
  }

  // ---- counting threads

  datatype Role = Past | Holding | Cleared | Other

  function RoleOf(p: Place): Role
  {
    match p
    case AtLock => Past
    case Testing(_) => Past
    case Claiming(_) => Past
    case AtUnlock(c) => if c.Some? then Holding else Past
    case Returned(c) => if c.Some? then Holding else Other
    case AtPost => Cleared
    case _ => Other
  }

  ghost function Members(m: map<Thread, Place>, r: Role): set<Thread>
  {
    set t | t in m && RoleOf(m[t]) == r
  }

  /** A move changes each head count by the roles that the thread leaves and enters. */
  lemma MembersMove(m: map<Thread, Place>, t: Thread, p: Place, r: Role)
    ensures |Members(m[t := p], r)| == |Members(m, r)| - (if t in m && RoleOf(m[t]) == r then 1 else 0)
                                       + (if RoleOf(p) == r then 1 else 0)
  {
    var before, after := Members(m, r), Members(m[t := p], r);
    if RoleOf(p) == r {
      assert after == before + {t};
    } else {
      assert after == before - {t};
    }
  }

  function InUse(b: seq<bool>): nat
  {
    if b == [] then 0 else InUse(b[..|b| - 1]) + if b[|b| - 1] then 1 else 0
  }

  lemma {:induction false} InUseUpdate(b: seq<bool>, i: nat, v: bool)
    requires i < |b|
    ensures InUse(b[i := v]) == InUse(b) - (if b[i] then 1 else 0) + (if v then 1 else 0)
  {
    var n := |b| - 1;
    if i < n {
      InUseUpdate(b[..n], i, v);
      assert b[i := v][..n] == b[..n][i := v];
    } else {
      assert b[i := v][..n] == b[..n];
    }
  }

  lemma {:induction false} NoneInUse(b: seq<bool>)
    ensures InUse(b) == 0 <==> forall i :: 0 <= i < |b| ==> !b[i]
  {
    if b != [] {
      NoneInUse(b[..|b| - 1]);
    }
  }

  lemma {:induction false} FreeSlot(b: seq<bool>) returns (i: nat)
    requires InUse(b) < |b|
    ensures i < |b| && !b[i]
  {
    var n := |b| - 1;
    if b[n] {
      i := FreeSlot(b[..n]);
    } else {
      i := n;
    }
  }

  // ---- the invariant

  /** The slot that a thread owns. */
  function Slot(p: Place): Option<nat>
  {
    match p
    case AtUnlock(c) => c
    case Returned(c) => c
    case _ => None
  }

  predicate InMutex(p: Place)
  {
    p.Testing? || p.Claiming? || p.AtUnlock?
  }

  /** Every permit is accounted for: it is free, with a thread on its way to a slot, bound to a slot in use, or about
      to be posted. */
  ghost predicate Conserved(s: State)
  {
    && s.permits + |Members(s.places, Past)| + |Members(s.places, Holding)| + |Members(s.places, Cleared)| == CSS_POOL_SIZE
    && InUse(s.inUsing) == |Members(s.places, Holding)|
  }

  /** A slot in use has one owner, and an owner's slot is in use. */
  ghost predicate Owned(m: map<Thread, Place>, b: seq<bool>)
  {
    && (forall t :: t in m && Slot(m[t]).Some? ==> Slot(m[t]).value < |b| && b[Slot(m[t]).value])
    && (forall t, u :: t in m && u in m && t != u && Slot(m[t]).Some? ==> Slot(m[t]) != Slot(m[u]))
  }

  /** Some slot from `i` on is free. */
  ghost predicate FreeFrom(b: seq<bool>, i: nat)
  {
    exists j :: i <= j < |b| && !b[j]
  }

  /** Only the mutex holder scans; what it is looking for is still ahead of it. */
  ghost predicate Scanned(s: State)
  {
    && (forall t :: t in s.places && InMutex(s.places[t]) ==> s.mutex == Some(t))
    && (s.mutex.Some? ==> s.mutex.value in s.places && InMutex(s.places[s.mutex.value]))
    && (forall t :: t in s.places ==> Hopeful(s.places[t], s.inUsing))
  }

  /** A scan has a free slot ahead of it, and what it returns is a slot. */
  ghost predicate Hopeful(p: Place, b: seq<bool>)
  {
    match p
    case Testing(i) => FreeFrom(b, i)
    case Claiming(i) => i < |b| && !b[i]
    case AtUnlock(c) => c.Some?
    case Returned(c) => c.Some?
    case _ => true
  }

  ghost predicate Inv(s: State)
  {
    |s.inUsing| == CSS_POOL_SIZE && Conserved(s) && Owned(s.places, s.inUsing) && Scanned(s)
  }

  lemma InitialInv()
    ensures Inv(Initial())
  {
    NoneInUse(Initial().inUsing);
    assert Members(map[], Past) == {} && Members(map[], Holding) == {} && Members(map[], Cleared) == {};
  }

  lemma MembersAllMove(m: map<Thread, Place>, t: Thread, p: Place)
    ensures forall r :: |Members(m[t := p], r)| == |Members(m, r)| - (if t in m && RoleOf(m[t]) == r then 1 else 0)
                                                   + (if RoleOf(p) == r then 1 else 0)
  {
    forall r {
      MembersMove(m, t, p, r);
    }
  }

  /** What the slots do in a step. */
  lemma InUseStep(s: State, t: Thread)
    requires Inv(s) && CanStep(s, t)
    ensures InUse(Step(s, t).inUsing) == InUse(s.inUsing) + match PlaceOf(s, t) case Claiming(_) => 1 case Returned(_) => -1 case _ => 0
  {
    if t in s.places {
      assert Hopeful(s.places[t], s.inUsing);
    }
    match PlaceOf(s, t)
    case Claiming(i) => InUseUpdate(s.inUsing, i, true);
    case Returned(c) => InUseUpdate(s.inUsing, c.value, false);
    case _ =>
  }

  lemma ConservedStep(s: State, t: Thread)
    requires Inv(s) && CanStep(s, t)
    ensures Conserved(Step(s, t))
  {
    if t in s.places {
      assert Hopeful(s.places[t], s.inUsing);
    }
    InUseStep(s, t);
    hide Owned, Scanned, InUse;
    var u := Step(s, t);
    MembersAllMove(s.places, t, PlaceOf(u, t));
  }

  lemma OwnedSame(m: map<Thread, Place>, b: seq<bool>, t: Thread, p: Place)
    requires Owned(m, b)
    requires Slot(p) == None || (t in m && Slot(p) == Slot(m[t]))
    ensures Owned(m[t := p], b)
  {
  }

  lemma OwnedTaken(m: map<Thread, Place>, b: seq<bool>, t: Thread, i: nat)
    requires Owned(m, b) && i < |b| && !b[i]
    ensures Owned(m[t := AtUnlock(Some(i))], b[i := true])
  {
  }

  lemma OwnedFreed(m: map<Thread, Place>, b: seq<bool>, t: Thread, i: nat)
    requires Owned(m, b) && t in m && Slot(m[t]) == Some(i)
    ensures i < |b| && Owned(m[t := AtPost], b[i := false])
  {
  }

  lemma OwnedStep(s: State, t: Thread)
    requires Inv(s) && CanStep(s, t)
    ensures Owned(Step(s, t).places, Step(s, t).inUsing)
  {
    if t in s.places {
      assert Hopeful(s.places[t], s.inUsing);
    }
    match PlaceOf(s, t)
    case Claiming(i) => OwnedTaken(s.places, s.inUsing, t, i);
    case Returned(c) => OwnedFreed(s.places, s.inUsing, t, c.value);
    case _ => OwnedSame(s.places, s.inUsing, t, PlaceOf(Step(s, t), t));
  }

  lemma SomeSlotFree(s: State, t: Thread)
    requires Inv(s) && PlaceOf(s, t).AtLock?
    ensures FreeFrom(s.inUsing, 0)
  {
    var past := Members(s.places, Past);
    assert t in past;
    assert past == (past - {t}) + {t};
    var j := FreeSlot(s.inUsing);
  }

  /** Freeing a slot disappoints nobody; nor does claiming one, as only the holder of the mutex does it. */
  lemma HopefulKept(p: Place, b: seq<bool>, i: nat, v: bool)
    requires Hopeful(p, b) && i < |b|
    requires v ==> !InMutex(p)
    ensures Hopeful(p, b[i := v])
  {
    if p.Testing? {
      var j :| p.i <= j < |b| && !b[j];
      assert !b[i := v][j];
    }
  }

  lemma HopefulAfter(s: State, t: Thread)
    requires Inv(s) && CanStep(s, t)
    ensures Hopeful(PlaceOf(Step(s, t), t), Step(s, t).inUsing)
  {
    match PlaceOf(s, t)
    case AtLock => SomeSlotFree(s, t);
    case Testing(i) =>
      assert Hopeful(s.places[t], s.inUsing);
      var j :| i <= j < |s.inUsing| && !s.inUsing[j];
      if s.inUsing[i] {
        assert i + 1 <= j;
        assert FreeFrom(s.inUsing, i + 1);
      }
    case _ =>
  }

  lemma ScannedStep(s: State, t: Thread)
    requires Inv(s) && CanStep(s, t)
    ensures Scanned(Step(s, t))
  {
    HopefulAfter(s, t);
    var u := Step(s, t);
    forall x | x in u.places
      ensures Hopeful(u.places[x], u.inUsing)
    {
      if x != t {
        assert Hopeful(s.places[x], s.inUsing);
        match PlaceOf(s, t)
        case Claiming(i) => HopefulKept(s.places[x], s.inUsing, i, true);
        case Returned(c) => HopefulKept(s.places[x], s.inUsing, c.value, false);
        case _ =>
      }
    }
  }

  lemma StepInv(s: State, t: Thread)
    requires Inv(s) && CanStep(s, t)
    ensures Inv(Step(s, t))
  {
    ConservedStep(s, t);
    OwnedStep(s, t);
    ScannedStep(s, t);
  }

  // ---- every interleaving

  /** The threads named in `ts` can step in this order. */
  ghost predicate CanRun(s: State, ts: seq<Thread>)
    decreases |ts|
  {
    ts == [] || (CanStep(s, ts[0]) && |s.inUsing| == CSS_POOL_SIZE && CanRun(Step(s, ts[0]), ts[1..]))
  }

  ghost function Run(s: State, ts: seq<Thread>): State
    requires CanRun(s, ts)
    decreases |ts|
  {
    if ts == [] then s else Run(Step(s, ts[0]), ts[1..])
  }

  lemma {:induction false} RunInv(s: State, ts: seq<Thread>)
    requires Inv(s) && CanRun(s, ts)
    ensures Inv(Run(s, ts))
    decreases |ts|
  {
    hide Inv, Step, CanStep;
    if ts != [] {
      StepInv(s, ts[0]);
      RunInv(Step(s, ts[0]), ts[1..]);
    }
  }

  /** In every interleaving no connection has two owners, and css_mysql_get never returns NULL. */
  lemma PoolSafety(ts: seq<Thread>, t: Thread, u: Thread)
    requires CanRun(Initial(), ts)
    ensures var s := Run(Initial(), ts);
            && (PlaceOf(s, t).Returned? ==> PlaceOf(s, t).t.Some? && PlaceOf(s, t).t.value < 10)
            && (PlaceOf(s, t).Returned? && PlaceOf(s, u).Returned? && t != u ==> PlaceOf(s, t).t != PlaceOf(s, u).t)
  {
    InitialInv();
    RunInv(Initial(), ts);
    hide Run, CanRun, Conserved;
    var s := Run(Initial(), ts);
    if t in s.places {
      assert Hopeful(s.places[t], s.inUsing);
    }
  }

  /** In every interleaving the ten permits are accounted for. */
  lemma PoolConservation(ts: seq<Thread>)
    requires CanRun(Initial(), ts)
    ensures var s := Run(Initial(), ts);
            && s.permits + |Members(s.places, Past)| + |Members(s.places, Holding)| + |Members(s.places, Cleared)| == 10
            && InUse(s.inUsing) == |Members(s.places, Holding)|
  {
    InitialInv();
    RunInv(Initial(), ts);
  }

  // ---- nobody waits for ever

  lemma MutexHolderMoves(s: State)
    requires Inv(s) && s.mutex.Some?
    ensures CanStep(s, s.mutex.value) && PlaceOf(s, s.mutex.value) != Outside
  {
  }

  /** A missing permit is somewhere. */
  lemma SomeoneBusy(s: State) returns (u: Thread)
    requires Inv(s) && s.permits < CSS_POOL_SIZE
    ensures u in s.places && RoleOf(s.places[u]) != Other
  {
    var past, holding, cleared := Members(s.places, Past), Members(s.places, Holding), Members(s.places, Cleared);
    if past != {} {
      u :| u in past;
    } else if holding != {} {
      u :| u in holding;
    } else {
      assert |cleared| > 0;
      u :| u in cleared;
    }
  }

  /** A blocked thread waits for one that is inside a call or holds a connection, and that is not blocked. */
  lemma NotAllBlocked(s: State, t: Thread) returns (u: Thread)
    requires Inv(s) && !CanStep(s, t)
    ensures u != t && CanStep(s, u) && !PlaceOf(s, u).Outside?
  {
    if s.mutex.Some? {
      MutexHolderMoves(s);
      u := s.mutex.value;
    } else {
      u := SomeoneBusy(s);
    }
  }

  /** The steps a thread can still take before it is outside again. */
  function Rank(p: Place): nat
  {
    match p
    case Outside => 0
    case AtPost => 1
    case Returned(_) => 2
    case AtUnlock(_) => 3
    case Claiming(_) => 4
    case Testing(i) => if i < CSS_POOL_SIZE then 15 - i else 4
    case AtLock => 16
    case AtWait => 17
  }

  ghost function TotalRank(m: map<Thread, Place>): nat
  {
    if m == map[] then 0
    else
      var t :| t in m;
      Rank(m[t]) + TotalRank(m - {t})
  }

  /** At most 17 steps for each call under way. */
  lemma {:induction false} TotalBound(m: map<Thread, Place>)
    ensures TotalRank(m) <= 17 * |m|
    decreases |m|
  {
    if m != map[] {
      var t :| t in m;
      TotalWithout(m, t);
      TotalBound(m - {t});
      assert |m - {t}| == |m| - 1 by {
        assert (m - {t}).Keys == m.Keys - {t};
      }
    }
  }

  lemma {:induction false} TotalWithout(m: map<Thread, Place>, t: Thread)
    requires t in m
    ensures TotalRank(m) == Rank(m[t]) + TotalRank(m - {t})
    decreases |m|
  {
    var u :| u in m && TotalRank(m) == Rank(m[u]) + TotalRank(m - {u});
    if u != t {
      TotalWithout(m - {u}, t);
      TotalWithout(m - {t}, u);
      assert m - {u} - {t} == m - {t} - {u};
    }
  }

  lemma RankDrops(s: State, t: Thread)
    requires Inv(s) && CanStep(s, t) && !PlaceOf(s, t).Outside?
    ensures Rank(PlaceOf(Step(s, t), t)) < Rank(PlaceOf(s, t))
    ensures Step(s, t).places == s.places[t := PlaceOf(Step(s, t), t)]
  {
    assert Hopeful(s.places[t], s.inUsing);
  }

  /** Every step but a new call brings the threads closer to being done. */
  lemma StepRank(s: State, t: Thread)
    requires Inv(s) && CanStep(s, t) && !PlaceOf(s, t).Outside?
    ensures TotalRank(Step(s, t).places) < TotalRank(s.places)
  {
    var after := Step(s, t).places;
    RankDrops(s, t);
    hide Inv, TotalRank, Step, CanStep, Rank;
    TotalWithout(s.places, t);
    TotalWithout(after, t);
    assert after - {t} == s.places - {t};
  }

  ghost predicate AllOutside(s: State)
  {
    forall t :: t in s.places ==> s.places[t].Outside?
  }

  /** From any point of any interleaving, the calls under way can all be completed, in so many steps; then every connection
      and every permit is free again. */
  lemma {:induction false} CallsComplete(s: State) returns (ts: seq<Thread>)
    requires Inv(s)
    ensures CanRun(s, ts) && |ts| <= TotalRank(s.places) <= 17 * |s.places|
    ensures AllOutside(Run(s, ts))
    ensures Run(s, ts).permits == |Run(s, ts).inUsing| == 10 && forall i :: 0 <= i < 10 ==> !Run(s, ts).inUsing[i]
    decreases TotalRank(s.places)
  {
    TotalBound(s.places);
    if AllOutside(s) {
      ts := [];
      AllFree(s);
    } else {
      var t :| t in s.places && !s.places[t].Outside?;
      if !CanStep(s, t) {
        t := NotAllBlocked(s, t);
      }
      StepInv(s, t);
      StepRank(s, t);
      var rest := CallsComplete(Step(s, t));
      ts := [t] + rest;
      assert ts[1..] == rest;
    }
  }

  /** Every step is taken by a thread that is in a call. */
  ghost predicate InCalls(s: State, ts: seq<Thread>)
    requires CanRun(s, ts)
    decreases |ts|
  {
    ts == [] || (!PlaceOf(s, ts[0]).Outside? && InCalls(Step(s, ts[0]), ts[1..]))
  }

  /** And any order of steps does as well: it is no longer than that, and where it cannot go on all calls are complete. */
  lemma {:induction false} AnyOrderCompletes(s: State, ts: seq<Thread>)
    requires Inv(s) && CanRun(s, ts) && InCalls(s, ts)
    ensures |ts| <= TotalRank(s.places) <= 17 * |s.places|
    ensures AllOutside(Run(s, ts)) || exists t :: CanStep(Run(s, ts), t) && !PlaceOf(Run(s, ts), t).Outside?
    decreases |ts|
  {
    hide Inv, Step, TotalRank;
    TotalBound(s.places);
    if ts == [] {
      if !AllOutside(s) {
        var t :| t in s.places && !s.places[t].Outside?;
        if !CanStep(s, t) {
          t := NotAllBlocked(s, t);
        }
        assert CanStep(s, t) && !PlaceOf(s, t).Outside?;
      }
    } else {
      StepInv(s, ts[0]);
      StepRank(s, ts[0]);
      AnyOrderCompletes(Step(s, ts[0]), ts[1..]);
    }
  }

  lemma AllFree(s: State)
    requires Inv(s) && AllOutside(s)
    ensures s.permits == |s.inUsing| == 10 && forall i :: 0 <= i < 10 ==> !s.inUsing[i]
  {
    NoneInUse(s.inUsing);
    assert Members(s.places, Past) == {} && Members(s.places, Holding) == {} && Members(s.places, Cleared) == {};
  }
}
