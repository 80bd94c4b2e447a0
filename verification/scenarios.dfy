/**
 * The two annotated calls in the body of `TestClass.initialize`, run through
 * the rule. Both are qualified calls of `setRxOnClick` on a view. The first
 * passes only the click listener and is followed by another statement; the
 * second, the last statement of the body, also passes the class's
 * `CompositeDisposable` field.
 */
module TestClassScenarios {
  import opened Wrappers
  import opened Uast
  import opened ValueUsage
  import opened CheckArgsAndResultDetector

  /**
   * 0 class TestClass, 1 fun initialize, 2 its body block,
   * 3 `textView.setRxOnClick { }` with receiver 4 and call 5,
   * 6 `imageView.setRxOnClick(cd) { }` with receiver 7 and call 8.
   */
  function InitializeTree(): (t: Tree)
    ensures WellFormed(t) && 5 in t && 8 in t
  {
    map[
      0 := Node(OtherDecl, None, 0),
      1 := Node(Method(false), Some(0), 1),
      2 := Node(Block([3, 6], Kotlin), Some(1), 2),
      3 := Node(QualifiedRef(5), Some(2), 3),
      4 := Node(OtherExpr, Some(3), 4),
      5 := Node(OtherExpr, Some(3), 4),
      6 := Node(QualifiedRef(8), Some(2), 3),
      7 := Node(OtherExpr, Some(6), 4),
      8 := Node(OtherExpr, Some(6), 4)
    ]
  }

  /** A placeholder for the listener argument's type text: any text other than `CompositeDisposableType`. */
  const ListenerType: string := "listener"

  function CheckArgsAndResult(): Annotation
  {
    Annotation(0, "com.example.customlint.CheckArgsAndResult", None)
  }

  function SetRxOnClick(): MethodInfo
  {
    MethodInfo(false, Some("com.example.customlintannotation.ExtKt"))
  }

  function Call(element: NodeId, argumentTypes: seq<Option<string>>): (u: Usage)
    requires element in InitializeTree()
    ensures ValidUsage(u)
  {
    Usage(InitializeTree(), element, Some(argumentTypes), Some("setRxOnClick"))
  }

  /** The first call is not the last statement of the body, so its result is reported. */
  method FirstCallIsReported() returns (report: Option<Report>)
    ensures report == Some(Report(CheckResultIssue, 5, BaseMessage(Some("setRxOnClick")), None))
  {
    var t := InitializeTree();
    assert Climb(t, 5) == Climb(t, 3) == Some((3, 2));
    assert IndexOf([3, 6], 3) == 0;
    assert ValueUnused(t, 5);
    assert "setRxOnClick"[..5][0] != "check"[0];
    report := VisitAnnotationUsage(
      Call(5, [Some(ListenerType)]), CheckArgsAndResult(), CheckArgsAndResult().qualifiedName,
      Some(SetRxOnClick()), [CheckArgsAndResult()], [], []);
  }

  /** The second call passes `cd`, so nothing is reported ... */
  method SecondCallIsSuppressed() returns (report: Option<Report>)
    ensures report == None
  {
    report := VisitAnnotationUsage(
      Call(8, [Some(CompositeDisposableType), Some(ListenerType)]), CheckArgsAndResult(),
      CheckArgsAndResult().qualifiedName, Some(SetRxOnClick()), [CheckArgsAndResult()], [], []);
  }

  /** ... although its value is dropped too: it ends a method body. */
  method SecondCallWithoutDisposableIsReported() returns (report: Option<Report>)
    ensures report.Some? && report.value.element == 8
  {
    var t := InitializeTree();
    assert Climb(t, 8) == Climb(t, 6) == Some((6, 2));
    assert IndexOf([3, 6], 6) == 1;
    report := VisitAnnotationUsage(
      Call(8, [Some(ListenerType)]), CheckArgsAndResult(), CheckArgsAndResult().qualifiedName,
      Some(SetRxOnClick()), [CheckArgsAndResult()], [], []);
  }
}
