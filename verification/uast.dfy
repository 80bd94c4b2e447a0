/**
 * An abstract syntax tree standing in for the host analysis tool's UAST.
 * Nodes are identified by numbers; each node records its kind, its parent
 * (`uastParent`, absent at the root) and its depth. A well-formed tree has
 * every parent present and strictly shallower than its child, which is what
 * makes upward walks terminate.
 */
module Uast {
  import opened Wrappers

  type NodeId = nat

  /** The language of a node's source element (`isKotlin` / `isJava`; neither when it has none). */
  datatype Lang = Kotlin | Java | UnknownLang

  /** The node kinds the detector distinguishes. */
  datatype Kind =
    | QualifiedRef(selector: NodeId)          // UQualifiedReferenceExpression `receiver.selector`
    | Block(exprs: seq<NodeId>, lang: Lang)   // UBlockExpression with its statement list
    | Lambda                                  // ULambdaExpression
    | Method(isConstructor: bool)             // UMethod
    | ClassInit                               // UClassInitializer
    | OtherExpr                               // any other UExpression: call, if, assignment, ...
    | OtherDecl                               // any other element that is not an expression

  /** Whether a node of this kind is a `UExpression`. */
  predicate IsExpression(k: Kind)
  {
    k.QualifiedRef? || k.Block? || k.Lambda? || k.OtherExpr?
  }

  datatype Node = Node(kind: Kind, parent: Option<NodeId>, depth: nat)

  type Tree = map<NodeId, Node>

  predicate WellFormed(t: Tree)
  {
    forall n | n in t :: t[n].parent.Some? ==>
      t[n].parent.value in t && t[t[n].parent.value].depth < t[n].depth
  }

  /** `a` is `n` itself or one of its ancestors. */
  ghost predicate AncestorOrSelf(t: Tree, n: NodeId, a: NodeId)
    requires WellFormed(t) && n in t
    decreases t[n].depth
  {
    n == a || (t[n].parent.Some? && AncestorOrSelf(t, t[n].parent.value, a))
  }

  /** No ancestor of `n` is deeper than `n`. */
  lemma {:induction false} AncestorNoDeeper(t: Tree, n: NodeId, a: NodeId)
    requires WellFormed(t) && n in t && a in t && AncestorOrSelf(t, n, a)
    ensures t[a].depth <= t[n].depth
    decreases t[n].depth
  {
    if n != a {
      AncestorNoDeeper(t, t[n].parent.value, a);
    }
  }

  /**
   * `getParentOfType<UExpression>(n, strict = false)`: the nearest node at or
   * above `n` that is an expression, if there is one (see EnclosingExpressionIsNearest).
   */
  function EnclosingExpression(t: Tree, n: NodeId): (r: Option<NodeId>)
    requires WellFormed(t) && n in t
    ensures r.Some? ==> r.value in t && IsExpression(t[r.value].kind)
    ensures r.Some? ==> t[r.value].depth <= t[n].depth && AncestorOrSelf(t, n, r.value)
    ensures IsExpression(t[n].kind) <==> r == Some(n)
    decreases t[n].depth
  {
    if IsExpression(t[n].kind) then Some(n)
    else match t[n].parent
      case None => None
      case Some(p) => EnclosingExpression(t, p)
  }

  /**
   * The enclosing expression is the nearest one: it is absent exactly when no
   * node at or above `n` is an expression, and no expression lies strictly
   * between `n` and it.
   */
  lemma {:induction false} EnclosingExpressionIsNearest(t: Tree, n: NodeId)
    requires WellFormed(t) && n in t
    ensures EnclosingExpression(t, n).None? <==>
      forall a | a in t && AncestorOrSelf(t, n, a) :: !IsExpression(t[a].kind)
    ensures EnclosingExpression(t, n).Some? ==>
      forall a | a in t && AncestorOrSelf(t, n, a) && t[a].depth > t[EnclosingExpression(t, n).value].depth ::
        !IsExpression(t[a].kind)
    decreases t[n].depth
  {
    if IsExpression(t[n].kind) {
      forall a | a in t && AncestorOrSelf(t, n, a) ensures t[a].depth <= t[n].depth {
        AncestorNoDeeper(t, n, a);
      }
    } else if t[n].parent.Some? {
      EnclosingExpressionIsNearest(t, t[n].parent.value);
    }
  }

  /** `List.indexOf`: the first position of `x` in `s`, or -1 when it does not occur. */
  function IndexOf(s: seq<NodeId>, x: NodeId): (r: int)
    ensures r == -1 <==> x !in s
    ensures r != -1 ==> 0 <= r < |s| && s[r] == x && x !in s[..r]
  {
    if s == [] then -1
    else if s[0] == x then 0
    else
      var k := IndexOf(s[1..], x);
      if k == -1 then -1
      else assert s[..k + 1] == [s[0]] + s[1..][..k]; k + 1
  }
}
