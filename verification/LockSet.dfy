/**
 The set of locks a task holds: an array of at most four locks, copied before every change so that the records that
 refer to an older set keep it.
 */
module LockSets {

  type Lock = nat

  const MAX_LOCKS: nat := 4

  // ---- what the operations compute, on the array's used part ----

  function RemoveFirst(s: seq<Lock>, x: Lock): (r: seq<Lock>)
    requires x in s
    ensures |r| == |s| - 1
  {
    if s[0] == x then s[1..] else [s[0]] + RemoveFirst(s[1..], x)
  }

  lemma {:induction false} RemoveFirstCounts(s: seq<Lock>, x: Lock)
    requires x in s
    ensures multiset(RemoveFirst(s, x)) == multiset(s) - multiset{x}
  {
    assert s == [s[0]] + s[1..];
    if s[0] != x {
      RemoveFirstCounts(s[1..], x);
    }
  }

  lemma {:induction false} RemoveFirstAt(s: seq<Lock>, x: Lock, i: nat)
    requires i < |s| && s[i] == x && x !in s[..i]
    ensures RemoveFirst(s, x) == s[..i] + s[i + 1..]
  {
    if i > 0 {
      assert s[0] == s[..i][0];
      assert s[1..][..i - 1] == s[..i][1..];
      RemoveFirstAt(s[1..], x, i - 1);
      assert [s[0]] + s[1..][..i - 1] == s[..i];
    }
  }

  /** A lock set as a record refers to it: none yet, or the locks in the order of their acquisition. */
  datatype Locks = NoSet | Held(locks: seq<Lock>)

  predicate Common(a: seq<Lock>, b: seq<Lock>) {
    exists x :: x in a && x in b
  }

  /** The subset test as coded: every pair of locks has to be equal. */
  predicate SubsetTest(me: Locks, other: Locks) {
    || me.NoSet?
    || (other.Held? && |me.locks| <= |other.locks|
        && forall x, y :: x in me.locks && y in other.locks ==> x == y)
  }

  predicate Included(me: seq<Lock>, other: seq<Lock>) {
    forall x :: x in me ==> x in other
  }

  function LocksOf(l: Locks): seq<Lock> {
    if l.NoSet? then [] else l.locks
  }

  /** The test is sound; it misses an inclusion exactly if the current set is not empty and the other one is shorter
      or holds a second lock. */
  lemma SubsetTestMeaning(me: Locks, other: Locks)
    ensures SubsetTest(me, other) ==> Included(LocksOf(me), LocksOf(other))
    ensures SubsetTest(me, other) <==>
      (&& Included(LocksOf(me), LocksOf(other))
       && (me.Held? ==> other.Held?)
       && (LocksOf(me) != [] ==>
             && |LocksOf(me)| <= |LocksOf(other)|
             && forall y :: y in LocksOf(other) ==> y == LocksOf(me)[0]))
  {
    if SubsetTest(me, other) && me.Held? && me.locks != [] {
      assert me.locks[0] in me.locks;
      assert other.locks[0] in other.locks;
    }
  }

  lemma SubsetTestMisses()
    ensures Included([7], [7, 8]) && !SubsetTest(Held([7]), Held([7, 8]))
  {
    assert 8 in [7, 8] && 7 in [7];
  }

  // ---- the array ----

  class SmallLockSet {
    const slots: array<Lock>
    var numLocks: nat

    ghost predicate Valid()
      reads this
    {
      slots.Length == MAX_LOCKS && numLocks <= MAX_LOCKS
    }

    ghost function Contents(): seq<Lock>
      requires Valid()
      reads this, slots
    {
      slots[..numLocks]
    }

    constructor ()
      ensures Valid() && fresh(slots)
      ensures Contents() == []
    {
      slots := new Lock[MAX_LOCKS](i => 0);
      numLocks := 0;
    }

    constructor Copy(other: SmallLockSet)
      requires other.Valid()
      ensures Valid() && fresh(slots)
      ensures Contents() == other.Contents()
    {
      var a := new Lock[MAX_LOCKS];
      for i := 0 to other.numLocks
        invariant a[..i] == other.slots[..i]
      {
        a[i] := other.slots[i];
      }
      slots := a;
      numLocks := other.numLocks;
    }

    /** False stands for the fatal log. */
    method AddLock(x: Lock) returns (ok: bool)
      requires Valid()
      modifies this, slots
      ensures Valid()
      ensures ok <==> |old(Contents())| < MAX_LOCKS
      ensures Contents() == old(Contents()) + if ok then [x] else []
    {
      if numLocks == MAX_LOCKS {
        return false;
      }
      slots[numLocks] := x;
      numLocks := numLocks + 1;
      return true;
    }

    method IndexOf(x: Lock) returns (index: nat)
      requires Valid()
      ensures index <= numLocks && x !in slots[..index]
      ensures index < numLocks ==> slots[index] == x
    {
      index := 0;
      while index < numLocks && slots[index] != x
        invariant index <= numLocks
        invariant x !in slots[..index]
      {
        index := index + 1;
      }
    }

    /** Moves the locks behind `index` one place down. */
    method CloseGap(index: nat)
      requires Valid() && index < numLocks
      modifies slots
      ensures slots[..numLocks - 1] == old(slots[..index]) + old(slots[index + 1..numLocks])
    {
      var i := index + 1;
      while i < numLocks
        invariant index + 1 <= i <= numLocks
        invariant forall k :: 0 <= k < index ==> slots[k] == old(slots[k])
        invariant forall k :: index <= k < i - 1 ==> slots[k] == old(slots[k + 1])
        invariant forall k :: i <= k < numLocks ==> slots[k] == old(slots[k])
      {
        slots[i - 1] := slots[i];
        i := i + 1;
      }
    }

    method RemoveLock(x: Lock) returns (ok: bool)
      requires Valid()
      modifies this, slots
      ensures Valid()
      ensures ok <==> x in old(Contents())
      ensures Contents() == if ok then RemoveFirst(old(Contents()), x) else old(Contents())
    {
      var index := IndexOf(x);
      if index == numLocks {
        return false;
      }
      ghost var before := Contents();
      assert before[index] == x && x !in before[..index];
      RemoveFirstAt(before, x, index);
      CloseGap(index);
      numLocks := numLocks - 1;
      return true;
    }

    method HasCommonLock(other: SmallLockSet) returns (common: bool)
      requires Valid() && other.Valid()
      ensures common <==> Common(Contents(), other.Contents())
    {
      for i := 0 to numLocks
        invariant forall k :: 0 <= k < i ==> slots[k] !in other.slots[..other.numLocks]
      {
        for j := 0 to other.numLocks
          invariant slots[i] !in other.slots[..j]
        {
          if other.slots[j] == slots[i] {
            assert slots[i] in Contents() && slots[i] in other.Contents();
            return true;
          }
        }
      }
      return false;
    }
  }

  ghost function Abstract(s: SmallLockSet?): Locks
    requires s != null ==> s.Valid()
    reads s, if s == null then {} else {s.slots}
  {
    if s == null then NoSet else Held(s.Contents())
  }

  method IsSubset(me: SmallLockSet?, other: SmallLockSet?) returns (subset: bool)
    requires me != null ==> me.Valid()
    requires other != null ==> other.Valid()
    ensures subset <==> SubsetTest(Abstract(me), Abstract(other))
  {
    if me == null {
      return true;
    } else if other == null {
      return false;
    }
    if other.numLocks < me.numLocks {
      return false;
    }
    for i := 0 to me.numLocks
      invariant forall k, j :: 0 <= k < i && 0 <= j < other.numLocks ==> me.slots[k] == other.slots[j]
    {
      for j := 0 to other.numLocks
        invariant forall k :: 0 <= k < j ==> me.slots[i] == other.slots[k]
      {
        if other.slots[j] != me.slots[i] {
          assert me.slots[i] in me.Contents() && other.slots[j] in other.Contents();
          return false;
        }
      }
    }
    return true;
  }

  // ---- the callbacks replace the task's lock set ----

  class LockHolder {
    var lockSet: SmallLockSet?

    ghost predicate Valid()
      reads this, lockSet
    {
      lockSet != null ==> lockSet.Valid()
    }

    ghost function Value(): Locks
      requires Valid()
      reads this, lockSet, if lockSet == null then {} else {lockSet.slots}
    {
      Abstract(lockSet)
    }

    /** Nothing but the reference changes, so every record keeps the set it refers to. */
    method MutexAcquired(x: Lock) returns (ok: bool)
      requires Valid()
      modifies this
      ensures Valid()
      ensures Apply(old(Value()), Acquire(x)) == if ok then Some(Value()) else None
      ensures fresh(lockSet)
    {
      var s: SmallLockSet;
      if lockSet == null {
        s := new SmallLockSet();
      } else {
        s := new SmallLockSet.Copy(lockSet);
      }
      ok := s.AddLock(x);
      lockSet := s;
    }

    /** A release without any acquired lock set dereferences null; false stands for that and for the fatal log. */
    method MutexReleased(x: Lock) returns (ok: bool)
      requires Valid()
      modifies this
      ensures Valid()
      ensures Apply(old(Value()), Release(x)) == if ok then Some(Value()) else None
      ensures ok ==> fresh(lockSet)
    {
      if lockSet == null {
        return false;
      }
      var s := new SmallLockSet.Copy(lockSet);
      ok := s.RemoveLock(x);
      lockSet := s;
    }
  }

  // ---- runs of acquire and release events ----

  datatype Event = Acquire(lock: Lock) | Release(lock: Lock)

  datatype Option<T> = None | Some(value: T)

  function Apply(l: Locks, e: Event): Option<Locks> {
    match e
    case Acquire(x) => if |LocksOf(l)| < MAX_LOCKS then Some(Held(LocksOf(l) + [x])) else None
    case Release(x) => if x in LocksOf(l) then Some(Held(RemoveFirst(LocksOf(l), x))) else None
  }

  function RunEvents(es: seq<Event>): Option<Locks> {
    if |es| == 0 then Some(NoSet)
    else
      var before := RunEvents(es[..|es| - 1]);
      if before.None? then None else Apply(before.value, es[|es| - 1])
  }

  /** The locks held after the events, as a multiset that knows nothing of the array. */
  function HeldAfter(es: seq<Event>): multiset<Lock> {
    if |es| == 0 then multiset{}
    else
      var before := HeldAfter(es[..|es| - 1]);
      match es[|es| - 1]
      case Acquire(x) => before + multiset{x}
      case Release(x) => before - multiset{x}
  }

  /** At most four locks are held at any time, and only held locks are released. */
  predicate WithinLimits(es: seq<Event>) {
    |es| == 0 ||
    (var before := HeldAfter(es[..|es| - 1]);
     && WithinLimits(es[..|es| - 1])
     && match es[|es| - 1]
        case Acquire(_) => |before| < 4
        case Release(x) => x in before)
  }

  /** Over any run, nested or not, the array stands for the multiset of held locks, and the fatal log is reached
      exactly by the runs that leave the limits. */
  lemma {:induction false} ArrayIsMultiset(es: seq<Event>)
    ensures RunEvents(es).Some? <==> WithinLimits(es)
    ensures RunEvents(es).Some? ==> multiset(LocksOf(RunEvents(es).value)) == HeldAfter(es)
  {
    if |es| > 0 {
      ArrayIsMultiset(es[..|es| - 1]);
      var before := RunEvents(es[..|es| - 1]);
      if before.Some? {
        var s := LocksOf(before.value);
        var e := es[|es| - 1];
        if e.Release? && e.lock in s {
          RemoveFirstCounts(s, e.lock);
        }
        assert |s| == |multiset(s)|;
        assert forall x :: x in s <==> x in multiset(s);
      }
    }
  }
}
