/** A capacity-limited resource pool with a first-come-first-served wait queue: the part of
    `simpy.Resource` the ward relies on. A request is named by a ticket; `users` are the
    granted requests in grant order (simpy's `Resource.users`, whose length is
    `Resource.count`), `queue` the pending ones in arrival order. */
module Pools {
  import opened Common

  type Ticket = nat

  /** `s` without its first occurrence of `t`, as Python's `list.remove` leaves it
      (and `s` itself when `t` does not occur). */
  function Remove(s: seq<Ticket>, t: Ticket): (r: seq<Ticket>)
    ensures t in s ==> |r| == |s| - 1
    ensures t !in s ==> r == s
    ensures forall x :: x in r ==> x in s
    ensures forall x :: x in s && x != t ==> x in r
  {
    if s == [] then []
    else if s[0] == t then s[1..]
    else [s[0]] + Remove(s[1..], t)
  }

  /** Removing from a duplicate-free sequence keeps it duplicate-free and removes `t` for good. */
  lemma {:induction false} RemoveNoDuplicates(s: seq<Ticket>, t: Ticket)
    requires NoDuplicates(s)
    ensures NoDuplicates(Remove(s, t)) && t !in Remove(s, t)
  {
    if s != [] {
      assert s[0] !in s[1..];
      assert NoDuplicates(s[1..]);
      if s[0] != t {
        RemoveNoDuplicates(s[1..], t);
        NoDuplicatesCons(s[0], Remove(s[1..], t));
      }
    }
  }

  class Pool {
    const capacity: nat
    var users: seq<Ticket>
    var queue: seq<Ticket>

    /** No request is both granted and pending or listed twice, at most `capacity` are
        granted, and a request waits only while every unit is taken. */
    ghost predicate Valid()
      reads this
    {
      && 0 < capacity
      && |users| <= capacity
      && NoDuplicates(users) && NoDuplicates(queue)
      && (forall t :: t in users ==> t !in queue)
      && (queue != [] ==> |users| == capacity)
    }

    /** Number of units in use (`Resource.count`). */
    function Count(): nat
      reads this
    {
      |users|
    }

    /** A pool with no unit in use and nobody waiting; simpy refuses a capacity of 0. */
    constructor (capacity: nat)
      requires 0 < capacity
      ensures Valid()
      ensures this.capacity == capacity && users == [] && queue == []
    {
      this.capacity := capacity;
      users := [];
      queue := [];
    }

    /** `request()`: granted at once while a unit is free, otherwise queued at the tail. */
    method Request(t: Ticket) returns (granted: bool)
      requires Valid()
      requires t !in users && t !in queue
      modifies this
      ensures Valid()
      ensures granted <==> old(|users|) < capacity
      ensures users == (if granted then old(users) + [t] else old(users))
      ensures queue == (if granted then old(queue) else old(queue) + [t])
    {
      granted := |users| < capacity;
      if granted {
        NoDuplicatesSnoc(users, t);
        users := users + [t];
      } else {
        NoDuplicatesSnoc(queue, t);
        queue := queue + [t];
      }
    }

    /** `release(request)` of a granted request: its unit is freed and, if anybody waits,
        handed straight to the head of the queue, whose ticket is returned. */
    method Release(t: Ticket) returns (next: Option<Ticket>)
      requires Valid()
      requires t in users
      modifies this
      ensures Valid()
      ensures next == (if old(queue) == [] then None else Some(old(queue)[0]))
      ensures users == Remove(old(users), t) + (if old(queue) == [] then [] else [old(queue)[0]])
      ensures queue == (if old(queue) == [] then [] else old(queue)[1..])
      ensures t !in users && t !in queue
    {
      RemoveNoDuplicates(users, t);
      users := Remove(users, t);
      if queue == [] {
        next := None;
      } else {
        next := Some(queue[0]);
        NoDuplicatesSnoc(users, queue[0]);
        users := users + [queue[0]];
        queue := queue[1..];
      }
    }

    /** Cancelling a request: a pending one leaves the queue without ever being granted;
        on a granted (or unknown) one this does nothing. */
    method Withdraw(t: Ticket)
      requires Valid()
      modifies this
      ensures Valid()
      ensures users == old(users)
      ensures queue == Remove(old(queue), t)
      ensures t !in queue
    {
      RemoveNoDuplicates(queue, t);
      queue := Remove(queue, t);
    }
  }
}
