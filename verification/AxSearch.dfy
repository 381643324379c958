/** The search of an accessibility tree for a password field, limited in depth and in the number of nodes looked at. */
module AxSearch {
  import opened Options

  /** An element of the tree, or a place in its parent's list that holds none. */
  datatype Element = Missing | Element(id: int, secure: bool, children: seq<Element>)

  function Bounded(n: int): nat { if n < 0 then 0 else n }

  /** The elements of the tree cut at a depth, parents before children, left to right. */
  function Preorder(e: Element, depth: int): seq<Element>
    decreases Bounded(depth), 0
  {
    if e.Missing? || depth <= 0 then [] else [e] + PreorderAll(e.children, depth - 1)
  }

  function PreorderAll(es: seq<Element>, depth: int): seq<Element>
    decreases Bounded(depth), |es|
  {
    if es == [] then [] else PreorderAll(es[..|es| - 1], depth) + Preorder(es[|es| - 1], depth)
  }

  predicate NoneSecure(s: seq<Element>, n: nat)
    requires n <= |s|
  {
    forall i :: 0 <= i < n ==> s[i].Element? && !s[i].secure
  }

  /** Looking along a row with a budget: `found` is the first secure element among the first `budget`, and `looked` the
      number of elements it took. */
  predicate Finds(row: seq<Element>, budget: nat, found: Option<Element>, looked: nat) {
    && looked <= |row| && looked <= budget
    && match found
       case None => NoneSecure(row, looked) && (looked == |row| || looked == budget)
       case Some(e) => 0 < looked && row[looked - 1] == e && e.Element? && e.secure && NoneSecure(row, looked - 1)
  }

  /** What a search finds, and what it costs, is determined. */
  lemma FindsIsUnique(row: seq<Element>, budget: nat, a: Option<Element>, m: nat, b: Option<Element>, n: nat)
    requires Finds(row, budget, a, m) && Finds(row, budget, b, n)
    ensures a == b && m == n
  {
  }

  /** Going on after a row in which nothing was found, */
  lemma FindsFurther(a: seq<Element>, b: seq<Element>, budget: nat, m: nat, found: Option<Element>, n: nat)
    requires Finds(a, budget, None, m) && m < budget && Finds(b, budget - m, found, n)
    ensures Finds(a + b, budget, found, m + n)
  {
  }

  /** and stopping before the end of one. */
  lemma FindsInLonger(a: seq<Element>, b: seq<Element>, budget: nat, found: Option<Element>, looked: nat)
    requires Finds(a, budget, found, looked) && (found.Some? || looked == budget)
    ensures Finds(a + b, budget, found, looked)
  {
  }

  lemma {:induction false} PreorderAllAppend(a: seq<Element>, b: seq<Element>, depth: int)
    ensures PreorderAll(a + b, depth) == PreorderAll(a, depth) + PreorderAll(b, depth)
  {
    if b == [] {
      assert a + b == a;
    } else {
      PreorderAllAppend(a, b[..|b| - 1], depth);
      assert (a + b)[..|a + b| - 1] == a + b[..|b| - 1];
    }
  }

  class Budget {
    var left: int

    constructor (left: int)
      ensures this.left == left
    {
      this.left := left;
    }
  }

  /** find_secure_text_field: the first secure element among the first `budget` elements of the preorder of the tree cut
      at the depth, or none; the budget goes down by the number of elements looked at. */
  method FindSecureTextField(e: Element, depth: int, budget: Budget) returns (found: Option<Element>)
    modifies budget
    ensures budget.left <= old(budget.left)
    ensures Finds(Preorder(e, depth), Bounded(old(budget.left)), found, old(budget.left) - budget.left)
    decreases Bounded(depth)
  {
    hide Finds, Preorder, PreorderAll;
    if e.Missing? || depth <= 0 || budget.left <= 0 {
      NothingToDo(e, depth, budget.left);
      return None;
    }
    ghost var start := budget.left;
    budget.left := budget.left - 1;
    if e.secure {
      FoundAtOnce(e, depth, start);
      return Some(e);
    }
    OneLooked(e, depth, start);
    found := None;
    var i := 0;
    while i < |e.children| && found.None? && budget.left > 0
      invariant 0 <= i <= |e.children| && 0 <= budget.left < start
      invariant Finds(SoFar(e, i, depth), start, found, start - budget.left)
    {
      ghost var before := budget.left;
      found := FindSecureTextField(e.children[i], depth - 1, budget);
      ChildLooked(e, i, depth, start, before, found, before - budget.left);
      i := i + 1;
    }
    RestLooked(e, i, depth, start, found, start - budget.left);
  }

  lemma NothingToDo(e: Element, depth: int, budget: int)
    requires e.Missing? || depth <= 0 || budget <= 0
    ensures Finds(Preorder(e, depth), Bounded(budget), None, 0)
  {
  }

  lemma FoundAtOnce(e: Element, depth: int, budget: int)
    requires e.Element? && e.secure && depth > 0 && budget > 0
    ensures Finds(Preorder(e, depth), budget, Some(e), 1)
  {
  }

  /** The part of the preorder behind the element and its first i children. */
  function SoFar(e: Element, i: nat, depth: int): seq<Element>
    requires e.Element? && i <= |e.children|
  {
    [e] + PreorderAll(e.children[..i], depth - 1)
  }

  lemma OneLooked(e: Element, depth: int, budget: int)
    requires e.Element? && !e.secure && budget > 0
    ensures Finds(SoFar(e, 0, depth), budget, None, 1)
  {
  }

  lemma ChildLooked(e: Element, i: nat, depth: int, start: nat, left: nat, found: Option<Element>, looked: nat)
    requires e.Element? && i < |e.children| && 0 < left < start
    requires Finds(SoFar(e, i, depth), start, None, start - left)
    requires Finds(Preorder(e.children[i], depth - 1), left, found, looked)
    ensures Finds(SoFar(e, i + 1, depth), start, found, start - left + looked) && looked <= left
  {
    hide Preorder;
    assert e.children[..i + 1][..i] == e.children[..i];
    FindsFurther(SoFar(e, i, depth), Preorder(e.children[i], depth - 1), start, start - left, found, looked);
    assert SoFar(e, i + 1, depth) == SoFar(e, i, depth) + Preorder(e.children[i], depth - 1);
  }

  lemma RestLooked(e: Element, i: nat, depth: int, start: nat, found: Option<Element>, looked: nat)
    requires e.Element? && i <= |e.children| && depth > 0
    requires Finds(SoFar(e, i, depth), start, found, looked)
    requires i == |e.children| || found.Some? || looked == start
    ensures Finds(Preorder(e, depth), start, found, looked)
  {
    hide Finds, PreorderAll;
    var rest := PreorderAll(e.children[i..], depth - 1);
    PreorderAllAppend(e.children[..i], e.children[i..], depth - 1);
    assert e.children[..i] + e.children[i..] == e.children;
    assert Preorder(e, depth) == SoFar(e, i, depth) + rest;
    if i == |e.children| {
      NoneLeft(e, depth);
      assert SoFar(e, i, depth) + [] == SoFar(e, i, depth);
    } else {
      FindsInLonger(SoFar(e, i, depth), rest, start, found, looked);
    }
  }

  lemma NoneLeft(e: Element, depth: int)
    requires e.Element?
    ensures PreorderAll(e.children[|e.children|..], depth - 1) == []
  {
  }
}
