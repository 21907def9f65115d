/**
 The undo history: a last-in-first-out stack with a capacity. Pushing onto a
 full stack never fails; it first drops the oldest entry.
 */
module Stacks {

  /** `data` holds the entries oldest first (the top is the last element);
      `size` is the capacity. */
  datatype Stack<T> = Stack(data: seq<T>, size: nat) {

    /** Holds for every stack built with a positive capacity and changed only
        by the operations below. */
    predicate Valid() {
      size >= 1 && |data| <= size
    }

    predicate IsFull() {
      |data| == size
    }

    predicate IsEmpty() {
      |data| == 0
    }
  }

  /** A fresh stack with the given capacity. */
  function NewStack<T>(size: nat): (s: Stack<T>)
    ensures s.IsEmpty() && s.size == size
    ensures size >= 1 ==> s.Valid()
  {
    Stack([], size)
  }

  /** Removes every entry and keeps the capacity. */
  function MakeEmpty<T>(s: Stack<T>): (r: Stack<T>)
    ensures r.IsEmpty() && r.size == s.size
    ensures s.Valid() ==> r.Valid()
  {
    Stack([], s.size)
  }

  /** Push `x`. When the stack is full the oldest entry (index 0) goes first.
      The one failing case is a capacity-0 stack with nothing to evict. */
  function Push<T>(s: Stack<T>, x: T): (r: Stack<T>)
    requires !(s.IsFull() && s.IsEmpty())
    ensures r.size == s.size && !r.IsEmpty()
    ensures r.data[|r.data| - 1] == x
    ensures !s.IsFull() ==> r.data[..|r.data| - 1] == s.data
    ensures s.IsFull() ==> r.data[..|r.data| - 1] == s.data[1..]
    ensures s.Valid() ==> r.Valid()
  {
    var kept := if s.IsFull() then s.data[1..] else s.data;
    Stack(kept + [x], s.size)
  }

  /** Pop the most recently pushed entry: the result is the remaining stack
      and the removed entry. */
  function Pop<T>(s: Stack<T>): (r: (Stack<T>, T))
    requires !s.IsEmpty()
    ensures r.0.data + [r.1] == s.data
    ensures r.0.size == s.size
    ensures s.Valid() ==> r.0.Valid() && !r.0.IsFull()
  {
    (Stack(s.data[..|s.data| - 1], s.size), s.data[|s.data| - 1])
  }

  /** Push every element of `xs`, first to last. */
  function PushAll<T>(s: Stack<T>, xs: seq<T>): (r: Stack<T>)
    requires s.Valid()
    ensures r.Valid()
    decreases |xs|
  {
    if xs == [] then s else PushAll(Push(s, xs[0]), xs[1..])
  }

  //-------------------------------------------------------------------------
  // Properties
  //-------------------------------------------------------------------------

  /** Pushing onto a stack that is not full and popping gives back the pushed
      entry and the previous stack. */
  lemma PushPop<T>(s: Stack<T>, x: T)
    requires !s.IsFull()
    ensures Pop(Push(s, x)) == (s, x)
  {
    var r := Push(s, x);
    assert r.data == s.data + [x];
  }

  /** Popping a valid stack and pushing the entry back restores the stack. */
  lemma PopPush<T>(s: Stack<T>)
    requires s.Valid() && !s.IsEmpty()
    ensures Push(Pop(s).0, Pop(s).1) == s
  {
    var (rest, x) := Pop(s);
    assert Push(rest, x).data == rest.data + [x];
  }

  /** Pushing onto a full stack drops exactly the oldest entry. */
  lemma PushFullEvictsOldest<T>(s: Stack<T>, x: T)
    requires s.IsFull() && !s.IsEmpty()
    ensures Push(s, x).data == s.data[1..] + [x]
    ensures |Push(s, x).data| == |s.data|
  {
    var r := Push(s, x);
    assert r.data == r.data[..|r.data| - 1] + [x];
  }

  /** The last `n` elements of `a`, or all of `a` when it is shorter. */
  function Newest<T>(a: seq<T>, n: nat): seq<T> {
    if |a| <= n then a else a[|a| - n..]
  }

  /** After a run of pushes, the stack holds the newest entries of its old
      contents followed by the pushed ones, oldest first, as many as fit. */
  lemma {:induction false} PushAllKeepsNewest<T>(s: Stack<T>, xs: seq<T>)
    requires s.Valid()
    ensures PushAll(s, xs).data == Newest(s.data + xs, s.size)
    decreases |xs|
  {
    if xs != [] {
      var s' := Push(s, xs[0]);
      PushAllKeepsNewest(s', xs[1..]);
      var all := s.data + xs;
      if s.IsFull() {
        assert s'.data == s.data[1..] + [xs[0]] by {
          assert s'.data == s'.data[..|s'.data| - 1] + [xs[0]];
        }
        assert s'.data + xs[1..] == all[1..];
        assert all[1..][|all| - 1 - s.size..] == all[|all| - s.size..];
      } else {
        assert s'.data == s.data + [xs[0]] by {
          assert s'.data == s'.data[..|s'.data| - 1] + [xs[0]];
        }
        assert s'.data + xs[1..] == all;
      }
    }
  }

  /** The bounded-history law: pushing items into an empty stack keeps all
      of them while they fit, and otherwise exactly the last capacity-many,
      oldest first. */
  lemma LastNSurvive<T>(s: Stack<T>, xs: seq<T>)
    requires s.Valid()
    ensures s.IsEmpty() && |xs| <= s.size ==> PushAll(s, xs).data == xs
    ensures |xs| >= s.size ==> PushAll(s, xs).data == xs[|xs| - s.size..]
  {
    PushAllKeepsNewest(s, xs);
    var all := s.data + xs;
    if s.IsEmpty() {
      assert all == xs;
    }
    if |xs| >= s.size {
      if |all| <= s.size {
        assert s.data == [] && all == xs[|xs| - s.size..];
      } else {
        assert all[|all| - s.size..] == xs[|xs| - s.size..];
      }
    }
  }
}
