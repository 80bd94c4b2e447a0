/**
 * `isExpressionValueUnused`: whether the value of an expression is thrown away.
 *
 * From the expression enclosing the element the walk climbs through every
 * qualified reference `a.b` whose selector is the node below, then looks at the
 * node it lands in (the "site"): a block statement is unused unless it is the
 * body of a Kotlin lambda or the last statement of a Kotlin block whose own
 * value is used; a constructor discards the value; any other node uses it.
 */
module ValueUsage {
  import opened Wrappers
  import opened Uast

  /** `y` is reached from `x` by climbing only through qualified references whose selector is the node below. */
  ghost predicate SelectorChain(t: Tree, x: NodeId, y: NodeId)
    requires WellFormed(t) && x in t
    decreases t[x].depth
  {
    x == y ||
    (t[x].parent.Some? && t[t[x].parent.value].kind == QualifiedRef(x) &&
     SelectorChain(t, t[x].parent.value, y))
  }

  /**
   * The climb of lines 139-143: from `x`, pass every parent that is a qualified
   * reference with the current node as its selector. The result is the pair
   * (prev, curr) where the climb stops, or None when a parent is missing.
   */
  function Climb(t: Tree, x: NodeId): (r: Option<(NodeId, NodeId)>)
    requires WellFormed(t) && x in t
    ensures r.Some? ==> r.value.0 in t && r.value.1 in t && t[r.value.0].parent == Some(r.value.1)
    ensures r.Some? ==> SelectorChain(t, x, r.value.0) && t[r.value.1].kind != QualifiedRef(r.value.0)
    ensures r.Some? ==> t[r.value.0].depth <= t[x].depth
    decreases t[x].depth
  {
    match t[x].parent
    case None => None
    case Some(c) => if t[c].kind == QualifiedRef(x) then Climb(t, c) else Some((x, c))
  }

  /** A block whose parent is a lambda and whose source is Kotlin. */
  predicate KotlinLambdaBody(t: Tree, b: NodeId)
    requires WellFormed(t) && b in t
  {
    t[b].kind.Block? && t[b].kind.lang == Kotlin &&
    t[b].parent.Some? && t[t[b].parent.value].kind.Lambda?
  }

  /** The specification of `isExpressionValueUnused`, as a recursive function over the tree. */
  function ValueUnused(t: Tree, element: NodeId): bool
    requires WellFormed(t) && element in t
    decreases t[element].depth
  {
    match EnclosingExpression(t, element)
    case None => true
    case Some(start) =>
      match Climb(t, start)
      case None => true
      case Some((prev, curr)) =>
        match t[curr].kind
        case Block(exprs, lang) =>
          if KotlinLambdaBody(t, curr) then false
          else
            var index := IndexOf(exprs, prev);
            if index == -1 then true
            else if index < |exprs| - 1 then true
            else if lang == Java then true
            else (
              match t[curr].parent
              case None => true
              case Some(parent) =>
                if t[parent].kind.Method? || t[parent].kind.ClassInit? then true
                else ValueUnused(t, parent))
        case Method(isConstructor) => isConstructor
        case _ => false
  }

  /**
   * The walk as the detector runs it: a loop that climbs with `prev` and `curr`,
   * then a case analysis on `curr`, with a tail call on the parent of a Kotlin block.
   */
  method IsExpressionValueUnused(t: Tree, element: NodeId) returns (unused: bool)
    requires WellFormed(t) && element in t
    ensures unused == ValueUnused(t, element)
    decreases t[element].depth
  {
    var enclosing := EnclosingExpression(t, element);
    if enclosing.None? {
      return true;
    }
    var prev := enclosing.value;
    if t[prev].parent.None? {
      return true;
    }
    var curr := t[prev].parent.value;
    while t[curr].kind.QualifiedRef? && t[curr].kind.selector == prev
      invariant prev in t && curr in t && t[prev].parent == Some(curr)
      invariant Climb(t, enclosing.value) == Climb(t, prev)
      decreases t[curr].depth
    {
      prev := curr;
      if t[curr].parent.None? {
        return true;
      }
      curr := t[curr].parent.value;
    }
    match t[curr].kind {
      case Block(exprs, lang) =>
        if KotlinLambdaBody(t, curr) {
          return false;
        }
        var index := IndexOf(exprs, prev);
        if index == -1 {
          return true;
        }
        if index < |exprs| - 1 {
          return true;
        }
        if lang == Java {
          return true;
        }
        if t[curr].parent.None? {
          return true;
        }
        var parent := t[curr].parent.value;
        if t[parent].kind.Method? || t[parent].kind.ClassInit? {
          return true;
        }
        unused := IsExpressionValueUnused(t, parent);
      case Method(isConstructor) =>
        unused := isConstructor;
      case _ =>
        unused := false;
    }
  }

  // ---------------------------------------------------------------------------
  // The climb stops exactly at the top of the selector chain.

  lemma {:induction false} ClimbFindsChainTop(t: Tree, x: NodeId, y: NodeId, c: NodeId)
    requires WellFormed(t) && x in t && y in t
    requires SelectorChain(t, x, y) && t[y].parent == Some(c) && t[c].kind != QualifiedRef(y)
    ensures Climb(t, x) == Some((y, c))
    decreases t[x].depth
  {
    if x != y {
      ClimbFindsChainTop(t, t[x].parent.value, y, c);
    }
  }

  lemma {:induction false} ClimbReachesRoot(t: Tree, x: NodeId, top: NodeId)
    requires WellFormed(t) && x in t && top in t
    requires SelectorChain(t, x, top) && t[top].parent.None?
    ensures Climb(t, x).None?
    decreases t[x].depth
  {
    if x != top {
      ClimbReachesRoot(t, t[x].parent.value, top);
    }
  }

  // ---------------------------------------------------------------------------
  // The classification, stated on the shape of the tree around the element.

  /**
   * `prev` is the outermost expression carrying the value of `element` (the top
   * of the selector chain above its enclosing expression) and `curr` is the node
   * it sits in.
   */
  ghost predicate ValueSite(t: Tree, element: NodeId, prev: NodeId, curr: NodeId)
    requires WellFormed(t) && element in t
  {
    EnclosingExpression(t, element).Some? && prev in t && curr in t &&
    SelectorChain(t, EnclosingExpression(t, element).value, prev) &&
    t[prev].parent == Some(curr) && t[curr].kind != QualifiedRef(prev)
  }

  /** `x` is the last statement of `exprs` and occurs nowhere before it. */
  ghost predicate IsLastStatement(exprs: seq<NodeId>, x: NodeId)
  {
    |exprs| > 0 && exprs[|exprs| - 1] == x && x !in exprs[..|exprs| - 1]
  }

  /**
   * The two index tests of lines 167 and 171 pass together exactly when the
   * expression is the last statement (for an empty block `indexOf` gives -1,
   * which is also `size - 1`, hence both tests).
   */
  lemma LastStatementIndex(exprs: seq<NodeId>, x: NodeId)
    ensures (IndexOf(exprs, x) != -1 && IndexOf(exprs, x) >= |exprs| - 1) <==> IsLastStatement(exprs, x)
  {
  }

  lemma NoEnclosingExpressionIsUnused(t: Tree, element: NodeId)
    requires WellFormed(t) && element in t
    requires forall a | a in t && AncestorOrSelf(t, element, a) :: !IsExpression(t[a].kind)
    ensures ValueUnused(t, element)
  {
  }

  lemma MissingParentIsUnused(t: Tree, element: NodeId, top: NodeId)
    requires WellFormed(t) && element in t && top in t
    requires EnclosingExpression(t, element).Some?
    requires SelectorChain(t, EnclosingExpression(t, element).value, top) && t[top].parent.None?
    ensures ValueUnused(t, element)
  {
    ClimbReachesRoot(t, EnclosingExpression(t, element).value, top);
  }

  lemma KotlinLambdaBodyIsUsed(t: Tree, element: NodeId, prev: NodeId, curr: NodeId)
    requires WellFormed(t) && element in t && ValueSite(t, element, prev, curr)
    requires KotlinLambdaBody(t, curr)
    ensures !ValueUnused(t, element)
  {
    ClimbFindsChainTop(t, EnclosingExpression(t, element).value, prev, curr);
  }

  lemma NonLastStatementIsUnused(t: Tree, element: NodeId, prev: NodeId, curr: NodeId)
    requires WellFormed(t) && element in t && ValueSite(t, element, prev, curr)
    requires t[curr].kind.Block? && !KotlinLambdaBody(t, curr)
    requires !IsLastStatement(t[curr].kind.exprs, prev)
    ensures ValueUnused(t, element)
  {
    ClimbFindsChainTop(t, EnclosingExpression(t, element).value, prev, curr);
    LastStatementIndex(t[curr].kind.exprs, prev);
  }

  lemma JavaStatementIsUnused(t: Tree, element: NodeId, prev: NodeId, curr: NodeId)
    requires WellFormed(t) && element in t && ValueSite(t, element, prev, curr)
    requires t[curr].kind.Block? && t[curr].kind.lang == Java
    ensures ValueUnused(t, element)
  {
    ClimbFindsChainTop(t, EnclosingExpression(t, element).value, prev, curr);
  }

  lemma BodyOfMethodOrInitializerIsUnused(t: Tree, element: NodeId, prev: NodeId, curr: NodeId)
    requires WellFormed(t) && element in t && ValueSite(t, element, prev, curr)
    requires t[curr].kind.Block? && t[curr].parent.Some?
    requires t[t[curr].parent.value].kind.Method? || t[t[curr].parent.value].kind.ClassInit?
    ensures ValueUnused(t, element)
  {
    ClimbFindsChainTop(t, EnclosingExpression(t, element).value, prev, curr);
  }

  lemma LastStatementOfRootBlockIsUnused(t: Tree, element: NodeId, prev: NodeId, curr: NodeId)
    requires WellFormed(t) && element in t && ValueSite(t, element, prev, curr)
    requires t[curr].kind.Block? && t[curr].parent.None?
    ensures ValueUnused(t, element)
  {
    ClimbFindsChainTop(t, EnclosingExpression(t, element).value, prev, curr);
  }

  /**
   * The last statement of a Kotlin (or language-less) block that is not a lambda
   * body hands its value on: it is unused exactly when the block's parent, a
   * strictly shallower node, is unused.
   */
  lemma LastStatementFollowsParent(t: Tree, element: NodeId, prev: NodeId, curr: NodeId, parent: NodeId)
    requires WellFormed(t) && element in t && ValueSite(t, element, prev, curr)
    requires t[curr].kind.Block? && t[curr].kind.lang != Java && !KotlinLambdaBody(t, curr)
    requires IsLastStatement(t[curr].kind.exprs, prev)
    requires t[curr].parent == Some(parent)
    requires !t[parent].kind.Method? && !t[parent].kind.ClassInit?
    ensures parent in t && t[parent].depth < t[element].depth
    ensures ValueUnused(t, element) == ValueUnused(t, parent)
  {
    ClimbFindsChainTop(t, EnclosingExpression(t, element).value, prev, curr);
    LastStatementIndex(t[curr].kind.exprs, prev);
  }

  lemma ConstructorSiteIsUnused(t: Tree, element: NodeId, prev: NodeId, curr: NodeId)
    requires WellFormed(t) && element in t && ValueSite(t, element, prev, curr)
    requires t[curr].kind == Method(true)
    ensures ValueUnused(t, element)
  {
    ClimbFindsChainTop(t, EnclosingExpression(t, element).value, prev, curr);
  }

  lemma OtherSiteIsUsed(t: Tree, element: NodeId, prev: NodeId, curr: NodeId)
    requires WellFormed(t) && element in t && ValueSite(t, element, prev, curr)
    requires !t[curr].kind.Block? && t[curr].kind != Method(true)
    ensures !ValueUnused(t, element)
  {
    ClimbFindsChainTop(t, EnclosingExpression(t, element).value, prev, curr);
  }

  /** A qualified reference carries the value of its selector: `a.b()` is unused iff `b()` is. */
  lemma SelectorIsTransparent(t: Tree, x: NodeId, q: NodeId)
    requires WellFormed(t) && x in t && IsExpression(t[x].kind)
    requires t[x].parent == Some(q) && t[q].kind == QualifiedRef(x)
    ensures ValueUnused(t, x) == ValueUnused(t, q)
  {
  }

  // ---------------------------------------------------------------------------
  // The walk only looks upward: nodes that are not ancestors of the element
  // cannot change the answer.

  /** Every node at or above `n` in `t` is present and identical in `t2`. */
  ghost predicate SameAbove(t: Tree, t2: Tree, n: NodeId)
    requires WellFormed(t) && n in t
  {
    forall a | a in t && AncestorOrSelf(t, n, a) :: a in t2 && t2[a] == t[a]
  }

  lemma {:induction false} AncestorTransitive(t: Tree, n: NodeId, m: NodeId, a: NodeId)
    requires WellFormed(t) && n in t && m in t
    requires AncestorOrSelf(t, n, m) && AncestorOrSelf(t, m, a)
    ensures AncestorOrSelf(t, n, a)
    decreases t[n].depth
  {
    if n != m {
      AncestorTransitive(t, t[n].parent.value, m, a);
    }
  }

  lemma {:induction false} SameAboveAncestor(t: Tree, t2: Tree, n: NodeId, m: NodeId)
    requires WellFormed(t) && n in t && m in t
    requires SameAbove(t, t2, n) && AncestorOrSelf(t, n, m)
    ensures SameAbove(t, t2, m)
  {
    forall a | a in t && AncestorOrSelf(t, m, a) ensures a in t2 && t2[a] == t[a] {
      AncestorTransitive(t, n, m, a);
    }
  }

  lemma {:induction false} ChainIsAncestry(t: Tree, x: NodeId, y: NodeId)
    requires WellFormed(t) && x in t && SelectorChain(t, x, y)
    ensures AncestorOrSelf(t, x, y)
    decreases t[x].depth
  {
    if x != y {
      ChainIsAncestry(t, t[x].parent.value, y);
    }
  }

  lemma {:induction false} EnclosingExpressionLocal(t: Tree, t2: Tree, n: NodeId)
    requires WellFormed(t) && WellFormed(t2) && n in t && n in t2
    requires SameAbove(t, t2, n)
    ensures EnclosingExpression(t2, n) == EnclosingExpression(t, n)
    decreases t[n].depth
  {
    assert AncestorOrSelf(t, n, n);
    if !IsExpression(t[n].kind) && t[n].parent.Some? {
      var p := t[n].parent.value;
      SameAboveAncestor(t, t2, n, p);
      assert AncestorOrSelf(t, p, p);
      EnclosingExpressionLocal(t, t2, p);
    }
  }

  lemma {:induction false} ClimbLocal(t: Tree, t2: Tree, x: NodeId)
    requires WellFormed(t) && WellFormed(t2) && x in t && x in t2
    requires SameAbove(t, t2, x)
    ensures Climb(t2, x) == Climb(t, x)
    decreases t[x].depth
  {
    assert AncestorOrSelf(t, x, x);
    if t[x].parent.Some? {
      var c := t[x].parent.value;
      SameAboveAncestor(t, t2, x, c);
      assert AncestorOrSelf(t, c, c);
      if t[c].kind == QualifiedRef(x) {
        ClimbLocal(t, t2, c);
      }
    }
  }

  lemma {:induction false} WalkDependsOnlyOnAncestors(t: Tree, t2: Tree, element: NodeId)
    requires WellFormed(t) && WellFormed(t2) && element in t && element in t2
    requires SameAbove(t, t2, element)
    ensures ValueUnused(t2, element) == ValueUnused(t, element)
    decreases t[element].depth
  {
    EnclosingExpressionLocal(t, t2, element);
    var enclosing := EnclosingExpression(t, element);
    if enclosing.Some? {
      var start := enclosing.value;
      assert AncestorOrSelf(t, start, start);
      SameAboveAncestor(t, t2, element, start);
      ClimbLocal(t, t2, start);
      var climb := Climb(t, start);
      if climb.Some? {
        var (prev, curr) := climb.value;
        ChainIsAncestry(t, start, prev);
        AncestorTransitive(t, element, start, prev);
        SameAboveAncestor(t, t2, element, prev);
        assert AncestorOrSelf(t, curr, curr);
        SameAboveAncestor(t, t2, prev, curr);
        if t[curr].parent.Some? {
          var parent := t[curr].parent.value;
          SameAboveAncestor(t, t2, curr, parent);
          assert AncestorOrSelf(t, parent, parent);
          if t[curr].kind.Block? && !KotlinLambdaBody(t, curr) {
            WalkDependsOnlyOnAncestors(t, t2, parent);
          }
        }
      }
    }
  }
}
