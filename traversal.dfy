/** Document-order walks over the parsed page, as the recursive `traverse` of the engines does
    them: the element first, then each child's subtree in order. */
module Traversal {
  import opened Wrappers
  import opened Dom

  /** The elements of a subtree in pre-order (document order); leaves are no elements. */
  function PreOrder(n: Node): (es: seq<Node>)
    ensures n.Element? ==> |es| > 0 && es[0] == n
    ensures n.Leaf? ==> es == []
    decreases n, 1
  {
    match n
    case Leaf(_) => []
    case Element(_, cs) => [n] + PreOrderAll(cs)
  }

  /** The pre-orders of a list of sibling subtrees, one after the other. */
  function PreOrderAll(cs: seq<Node>): seq<Node>
    decreases cs, 0
  {
    if cs == [] then [] else PreOrderAll(cs[..|cs| - 1]) + PreOrder(cs[|cs| - 1])
  }

  /** What `at` yields for each element of the list, concatenated in list order. */
  function FlatMap<R>(es: seq<Node>, at: Node -> seq<R>): seq<R> {
    if es == [] then [] else FlatMap(es[..|es| - 1], at) + at(es[|es| - 1])
  }

  lemma {:induction false} FlatMapAppend<R>(a: seq<Node>, b: seq<Node>, at: Node -> seq<R>)
    ensures FlatMap(a + b, at) == FlatMap(a, at) + FlatMap(b, at)
    decreases |b|
  {
    if b == [] {
      assert a + b == a;
    } else {
      assert (a + b)[..|a + b| - 1] == a + b[..|b| - 1];
      FlatMapAppend(a, b[..|b| - 1], at);
    }
  }

  /** The recursive walk: `at` at an element, then the walks of its children in order. */
  function Walk<R>(n: Node, at: Node -> seq<R>): seq<R>
    decreases n, 1
  {
    match n
    case Leaf(_) => []
    case Element(_, cs) => at(n) + WalkAll(cs, at)
  }

  function WalkAll<R>(cs: seq<Node>, at: Node -> seq<R>): seq<R>
    decreases cs, 0
  {
    if cs == [] then [] else WalkAll(cs[..|cs| - 1], at) + Walk(cs[|cs| - 1], at)
  }

  /** The walk yields, for every element in pre-order, what `at` yields there: an element's
      output comes before everything found in its subtree, whether it produced any or not. */
  lemma {:induction false} WalkIsPreOrder<R>(n: Node, at: Node -> seq<R>)
    ensures Walk(n, at) == FlatMap(PreOrder(n), at)
    decreases n, 1
  {
    match n
    case Leaf(_) =>
    case Element(_, cs) =>
      WalkAllIsPreOrder(cs, at);
      FlatMapAppend([n], PreOrderAll(cs), at);
      assert FlatMap([n], at) == at(n) by {
        assert [n][..0] == [];
      }
  }

  lemma {:induction false} WalkAllIsPreOrder<R>(cs: seq<Node>, at: Node -> seq<R>)
    ensures WalkAll(cs, at) == FlatMap(PreOrderAll(cs), at)
    decreases cs, 0
  {
    if cs != [] {
      WalkAllIsPreOrder(cs[..|cs| - 1], at);
      WalkIsPreOrder(cs[|cs| - 1], at);
      FlatMapAppend(PreOrderAll(cs[..|cs| - 1]), PreOrder(cs[|cs| - 1]), at);
    }
  }

  /** The same walk where `at` may throw: the first exception in document order ends it. */
  function FlatMapTry<R>(es: seq<Node>, at: Node -> Try<seq<R>>): Try<seq<R>> {
    if es == [] then Ok([])
    else
      var init :- FlatMapTry(es[..|es| - 1], at);
      var last :- at(es[|es| - 1]);
      Ok(init + last)
  }

  lemma {:induction false} FlatMapTryAppend<R>(a: seq<Node>, b: seq<Node>, at: Node -> Try<seq<R>>)
    ensures FlatMapTry(a + b, at) ==
      (var x :- FlatMapTry(a, at); var y :- FlatMapTry(b, at); Ok(x + y))
    decreases |b|
  {
    if b == [] {
      assert a + b == a;
      if FlatMapTry(a, at).Ok? {
        assert FlatMapTry(a, at).value + [] == FlatMapTry(a, at).value;
      }
    } else {
      var b' := b[..|b| - 1];
      assert (a + b)[..|a + b| - 1] == a + b';
      assert (a + b)[|a + b| - 1] == b[|b| - 1];
      FlatMapTryAppend(a, b', at);
      if FlatMapTry(a, at).Ok? && FlatMapTry(b', at).Ok? && at(b[|b| - 1]).Ok? {
        var x, y, l := FlatMapTry(a, at).value, FlatMapTry(b', at).value, at(b[|b| - 1]).value;
        assert x + y + l == x + (y + l);
      }
    }
  }

  /** The position of the first element, in list order, whose output throws; `|es|` when none does. */
  function FirstThrow<R>(es: seq<Node>, at: Node -> Try<seq<R>>): (j: nat)
    ensures j <= |es|
    ensures j < |es| ==> at(es[j]).Throws?
  {
    if es == [] then 0
    else
      var j := FirstThrow(es[..|es| - 1], at);
      if j < |es| - 1 then j else if at(es[|es| - 1]).Throws? then |es| - 1 else |es|
  }

  /** Every element before the first throwing one succeeded. */
  lemma {:induction false} FirstThrowBefore<R>(es: seq<Node>, at: Node -> Try<seq<R>>, i: nat)
    requires i < FirstThrow(es, at)
    ensures at(es[i]).Ok?
    decreases |es|
  {
    if i < |es| - 1 {
      FirstThrowBefore(es[..|es| - 1], at, i);
    }
  }

  /** The walk with throwing outputs is the walk of the outputs when none throws, and otherwise
      throws the exception of the first element, in list order, whose output throws. */
  lemma {:induction false} FlatMapTryFirstThrow<R>(es: seq<Node>, at: Node -> Try<seq<R>>)
    ensures var j := FirstThrow(es, at);
      FlatMapTry(es, at) == if j < |es| then at(es[j]) else Ok(FlatMap(es, e => if at(e).Ok? then at(e).value else []))
    decreases |es|
  {
    if es != [] {
      FlatMapTryFirstThrow(es[..|es| - 1], at);
    }
  }

  /** The recursive walk where `at` may throw. */
  function WalkTry<R>(n: Node, at: Node -> Try<seq<R>>): Try<seq<R>>
    decreases n, 1
  {
    match n
    case Leaf(_) => Ok([])
    case Element(_, cs) =>
      var here :- at(n);
      var below :- WalkAllTry(cs, at);
      Ok(here + below)
  }

  function WalkAllTry<R>(cs: seq<Node>, at: Node -> Try<seq<R>>): Try<seq<R>>
    decreases cs, 0
  {
    if cs == [] then Ok([])
    else
      var init :- WalkAllTry(cs[..|cs| - 1], at);
      var last :- WalkTry(cs[|cs| - 1], at);
      Ok(init + last)
  }

  /** One more child: its output joins the children's so far, or its exception ends the walk. */
  lemma WalkAllTryNext<R>(cs: seq<Node>, k: nat, at: Node -> Try<seq<R>>)
    requires k < |cs| && WalkAllTry(cs[..k], at).Ok?
    ensures WalkAllTry(cs[..k + 1], at) ==
      (var w :- WalkTry(cs[k], at); Ok(WalkAllTry(cs[..k], at).value + w))
  {
    assert cs[..k + 1][..k] == cs[..k];
  }

  /** Once the children so far throw, the remaining children change nothing. */
  lemma {:induction false} WalkAllTryPrefixThrows<R>(cs: seq<Node>, k: nat, at: Node -> Try<seq<R>>)
    requires k <= |cs| && WalkAllTry(cs[..k], at).Throws?
    ensures WalkAllTry(cs, at) == WalkAllTry(cs[..k], at)
    decreases |cs|
  {
    if k < |cs| {
      assert cs[..|cs| - 1][..k] == cs[..k];
      WalkAllTryPrefixThrows(cs[..|cs| - 1], k, at);
    } else {
      assert cs[..k] == cs;
    }
  }

  /** The throwing walk visits the elements in pre-order too. */
  lemma {:induction false} WalkTryIsPreOrder<R>(n: Node, at: Node -> Try<seq<R>>)
    ensures WalkTry(n, at) == FlatMapTry(PreOrder(n), at)
    decreases n, 1
  {
    match n
    case Leaf(_) =>
    case Element(_, cs) =>
      WalkAllTryIsPreOrder(cs, at);
      FlatMapTryAppend([n], PreOrderAll(cs), at);
      assert FlatMapTry([n], at) == (var h :- at(n); Ok([] + h)) by {
        assert [n][..0] == [];
      }
      assert forall h: seq<R> :: [] + h == h;
  }

  lemma {:induction false} WalkAllTryIsPreOrder<R>(cs: seq<Node>, at: Node -> Try<seq<R>>)
    ensures WalkAllTry(cs, at) == FlatMapTry(PreOrderAll(cs), at)
    decreases cs, 0
  {
    if cs != [] {
      WalkAllTryIsPreOrder(cs[..|cs| - 1], at);
      WalkTryIsPreOrder(cs[|cs| - 1], at);
      FlatMapTryAppend(PreOrderAll(cs[..|cs| - 1]), PreOrder(cs[|cs| - 1]), at);
    }
  }
}
