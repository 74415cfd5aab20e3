/**
  Walking a Clarity expression with an explicit stack: a list's items are
  pushed left to right, so they are visited right to left, each before what is
  inside it.
 */
module DepthTraverse {
  import opened Codecs

  /** Only lists have parts; every other kind of expression is an atom here. */
  datatype Expr = Atom(id: nat) | List(id: nat, items: seq<Expr>)

  /** The visitor may change its own state, and may fail. */
  datatype Visit<+S, +T, +E> = Went(state: S, value: T) | Refused(error: E)

  datatype Outcome<+S, +T, +E> = Finished(state: S, last: Option<T>) | Stopped(at: nat, error: E)

  // ---------- Orders ----------

  /** A node, then its parts from the last to the first. */
  function Order(e: Expr): (es: seq<Expr>)
    ensures es != [] && es[0] == e
    decreases e, 1
  {
    match e
    case Atom(_) => [e]
    case List(_, items) => [e] + OrderAll(items)
  }

  function OrderAll(items: seq<Expr>): seq<Expr>
    decreases items, 0
  {
    if items == [] then [] else OrderAll(items[1..]) + Order(items[0])
  }

  /** The parts from the first to the last, then the node. */
  function PostOrder(e: Expr): seq<Expr>
    decreases e, 1
  {
    match e
    case Atom(_) => [e]
    case List(_, items) => PostOrderAll(items) + [e]
  }

  function PostOrderAll(items: seq<Expr>): seq<Expr>
    decreases items, 0
  {
    if items == [] then [] else PostOrder(items[0]) + PostOrderAll(items[1..])
  }

  function Reverse<T>(xs: seq<T>): (ys: seq<T>)
    ensures |ys| == |xs| && forall i | 0 <= i < |xs| :: ys[i] == xs[|xs| - 1 - i]
  {
    if xs == [] then [] else Reverse(xs[1..]) + [xs[0]]
  }

  lemma ReverseConcat<T>(xs: seq<T>, ys: seq<T>)
    ensures Reverse(xs + ys) == Reverse(ys) + Reverse(xs)
  {
  }

  /** The visiting order is exactly left-to-right postorder read backwards. */
  lemma {:induction false} OrderReversesPostOrder(e: Expr)
    ensures Order(e) == Reverse(PostOrder(e))
    decreases e, 1
  {
    match e
    case Atom(_) =>
      assert Reverse([e]) == [e];
    case List(_, items) =>
      OrderAllReverses(items);
      ReverseConcat(PostOrderAll(items), [e]);
      assert Reverse([e]) == [e];
  }

  lemma {:induction false} OrderAllReverses(items: seq<Expr>)
    ensures OrderAll(items) == Reverse(PostOrderAll(items))
    decreases items, 0
  {
    if items != [] {
      OrderReversesPostOrder(items[0]);
      OrderAllReverses(items[1..]);
      ReverseConcat(PostOrder(items[0]), PostOrderAll(items[1..]));
    }
  }

  /** Every node of the tree, as often as it occurs. */
  function NodesOf(e: Expr): multiset<Expr>
    decreases e, 1
  {
    match e
    case Atom(_) => multiset{e}
    case List(_, items) => multiset{e} + NodesOfAll(items)
  }

  function NodesOfAll(items: seq<Expr>): multiset<Expr>
    decreases items, 0
  {
    if items == [] then multiset{} else NodesOf(items[0]) + NodesOfAll(items[1..])
  }

  /** Each occurrence of a node is visited once. */
  lemma {:induction false} OrderVisitsEachOnce(e: Expr)
    ensures multiset(Order(e)) == NodesOf(e)
    decreases e, 1
  {
    if e.List? {
      OrderAllVisitsEachOnce(e.items);
    }
  }

  lemma {:induction false} OrderAllVisitsEachOnce(items: seq<Expr>)
    ensures multiset(OrderAll(items)) == NodesOfAll(items)
    decreases items, 0
  {
    if items != [] {
      OrderVisitsEachOnce(items[0]);
      OrderAllVisitsEachOnce(items[1..]);
    }
  }

  function LeftmostLeaf(e: Expr): Expr {
    if e.List? && e.items != [] then LeftmostLeaf(e.items[0]) else e
  }

  lemma {:induction false} LeftmostIsLast(e: Expr)
    ensures Order(e)[|Order(e)| - 1] == LeftmostLeaf(e)
  {
    if e.List? && e.items != [] {
      LeftmostIsLast(e.items[0]);
      assert Order(e) == [e] + (OrderAll(e.items[1..]) + Order(e.items[0]));
    }
  }

  // ---------- Visiting a list of nodes ----------

  function VisitAll<S, T, E>(visit: (S, Expr) -> Visit<S, T, E>, s: S, last: Option<T>, es: seq<Expr>, at: nat)
    : Outcome<S, T, E>
    decreases es
  {
    if es == [] then Finished(s, last)
    else match visit(s, es[0])
         case Refused(e) => Stopped(at, e)
         case Went(t, v) => VisitAll(visit, t, Some(v), es[1..], at + 1)
  }

  /** Visiting a list is visiting its first part and, unless that stopped, the rest. */
  lemma {:induction false} VisitConcat<S, T, E>(
    visit: (S, Expr) -> Visit<S, T, E>, s: S, last: Option<T>, xs: seq<Expr>, ys: seq<Expr>, at: nat)
    ensures VisitAll(visit, s, last, xs + ys, at) ==
              match VisitAll(visit, s, last, xs, at)
              case Finished(t, l) => VisitAll(visit, t, l, ys, at + |xs|)
              case Stopped(k, e) => Stopped(k, e)
    decreases xs
  {
    if xs == [] {
      assert xs + ys == ys;
    } else if visit(s, xs[0]).Went? {
      var w := visit(s, xs[0]);
      VisitConcat(visit, w.state, Some(w.value), xs[1..], ys, at + 1);
      assert (xs + ys)[0] == xs[0] && (xs + ys)[1..] == xs[1..] + ys;
    }
  }

  /**
    A walk that ends normally returns what the visit of the leftmost leaf gave; one that stops has
    visited everything before the first node, in visiting order, that failed.
   */
  lemma WalkResult<S(!new), T(!new), E(!new)>(visit: (S, Expr) -> Visit<S, T, E>, s: S, e: Expr)
    ensures var es := Order(e);
            var front := VisitAll(visit, s, None, es[..|es| - 1], 0);
            match VisitAll(visit, s, None, es, 0)
            case Finished(t, last) => front.Finished? && visit(front.state, LeftmostLeaf(e)).Went? && last == Some(visit(front.state, LeftmostLeaf(e)).value)
            case Stopped(k, error) =>
              && k < |es|
              && VisitAll(visit, s, None, es[..k], 0).Finished?
              && visit(VisitAll(visit, s, None, es[..k], 0).state, es[k]) == Refused(error)
  {
    var es := Order(e);
    var n := |es| - 1;
    LeftmostIsLast(e);
    assert es == es[..n] + [es[n]];
    VisitConcat(visit, s, None, es[..n], [es[n]], 0);
    if VisitAll(visit, s, None, es, 0).Stopped? {
      FirstFailure(visit, s, None, es, 0);
    }
  }

  lemma {:induction false} FirstFailure<S, T, E>(visit: (S, Expr) -> Visit<S, T, E>, s: S, last: Option<T>, es: seq<Expr>, at: nat)
    requires VisitAll(visit, s, last, es, at).Stopped?
    ensures var k := VisitAll(visit, s, last, es, at).at;
            && at <= k < at + |es|
            && VisitAll(visit, s, last, es[..k - at], at).Finished?
            && visit(VisitAll(visit, s, last, es[..k - at], at).state, es[k - at]) ==
                 Refused(VisitAll(visit, s, last, es, at).error)
    decreases es
  {
    if visit(s, es[0]).Went? {
      var w := visit(s, es[0]);
      FirstFailure(visit, w.state, Some(w.value), es[1..], at + 1);
      var k := VisitAll(visit, s, last, es, at).at;
      assert es[..k - at][1..] == es[1..][..k - at - 1];
    } else {
      assert es[..0] == [];
    }
  }

  // ---------- The walk ----------

  /** What is still to be visited, top of the stack first. */
  ghost function Pending(stack: seq<Expr>): seq<Expr> {
    if stack == [] then [] else Order(stack[|stack| - 1]) + Pending(stack[..|stack| - 1])
  }

  lemma {:induction false} PendingPushed(stack: seq<Expr>, items: seq<Expr>)
    ensures Pending(stack + items) == OrderAll(items) + Pending(stack)
  {
    if items == [] {
      assert stack + items == stack;
    } else {
      var n := |items| - 1;
      assert (stack + items)[..|stack| + n] == stack + items[..n];
      PendingPushed(stack, items[..n]);
      OrderAllSnoc(items[..n], items[n]);
      assert items == items[..n] + [items[n]];
    }
  }

  lemma {:induction false} OrderAllSnoc(items: seq<Expr>, e: Expr)
    ensures OrderAll(items + [e]) == Order(e) + OrderAll(items)
  {
    if items == [] {
      assert items + [e] == [e] && [e][1..] == [];
    } else {
      OrderAllSnoc(items[1..], e);
      assert (items + [e])[0] == items[0] && (items + [e])[1..] == items[1..] + [e];
      Regroup(Order(e), OrderAll(items[1..]), Order(items[0]));
    }
  }

  function Parts(e: Expr): seq<Expr> {
    if e.List? then e.items else []
  }

  /** Popping a node and pushing its parts takes exactly that node off what is pending. */
  lemma PendingPopped(stack: seq<Expr>)
    requires stack != []
    ensures var rest, top := stack[..|stack| - 1], stack[|stack| - 1];
            Pending(stack) == [top] + Pending(rest + Parts(top))
  {
    var rest, top := stack[..|stack| - 1], stack[|stack| - 1];
    PendingPushed(rest, Parts(top));
    OrderByParts(top);
    Regroup([top], OrderAll(Parts(top)), Pending(rest));
  }

  lemma OrderByParts(e: Expr)
    ensures Order(e) == [e] + OrderAll(Parts(e))
  {
    if e.Atom? {
      assert OrderAll([]) == [];
      assert [e] + [] == [e];
    }
  }

  lemma Regroup<T>(a: seq<T>, b: seq<T>, c: seq<T>)
    ensures (a + b) + c == a + (b + c)
  {
  }

  lemma VisitNext<S, T, E>(visit: (S, Expr) -> Visit<S, T, E>, s: S, last: Option<T>, e: Expr, es: seq<Expr>, at: nat)
    ensures VisitAll(visit, s, last, [e] + es, at) ==
              match visit(s, e)
              case Refused(error) => Stopped(at, error)
              case Went(t, v) => VisitAll(visit, t, Some(v), es, at + 1)
  {
    assert ([e] + es)[1..] == es;
  }

  method PushAll(stack: seq<Expr>, items: seq<Expr>) returns (pushed: seq<Expr>)
    ensures pushed == stack + items
  {
    pushed := stack;
    for i := 0 to |items|
      invariant pushed == stack + items[..i]
    {
      pushed := pushed + [items[i]];
    }
    assert items[..|items|] == items;
  }

  /** Visits the expression with an explicit stack until it is empty or a visit fails. */
  method Traverse<S(!new), T(!new), E(!new)>(expr: Expr, visit: (S, Expr) -> Visit<S, T, E>, s: S)
    returns (r: Outcome<S, T, E>)
    ensures r == VisitAll(visit, s, None, Reverse(PostOrder(expr)), 0)
  {
    var stack, state, last, count := [expr], s, None, 0;
    ghost var whole := VisitAll(visit, s, None, Reverse(PostOrder(expr)), 0);
    OrderReversesPostOrder(expr);
    assert Pending([expr]) == Order(expr) + Pending([]) == Order(expr);
    while stack != []
      invariant whole == VisitAll(visit, state, last, Pending(stack), count)
      decreases |Pending(stack)|
    {
      var current := stack[|stack| - 1];
      PendingPopped(stack);
      ghost var next := Pending(stack[..|stack| - 1] + Parts(current));
      VisitNext(visit, state, last, current, next, count);
      var visited := visit(state, current);
      if visited.Refused? {
        return Stopped(count, visited.error);
      }
      stack := PushAll(stack[..|stack| - 1], Parts(current));
      state, last, count := visited.state, Some(visited.value), count + 1;
    }
    r := Finished(state, last);
  }
}
