/**
 * The rule of `CheckArgsAndResultDetector`: a call to a method annotated with
 * `@CheckArgsAndResult` is reported when its result is discarded, unless one of
 * its arguments is a `CompositeDisposable` (the subscription is then tracked and
 * may be dropped), the annotation comes from the package, the annotation is the
 * error-prone "can ignore return value" marker, the member or its class carries
 * that marker, or the method returns void.
 */
module CheckArgsAndResultDetector {
  import opened Wrappers
  import opened Uast
  import opened ValueUsage

  /** `AnnotationDetector.ERRORPRONE_CAN_IGNORE_RETURN_VALUE` of the host tool. */
  const CanIgnoreReturnValue: string := "com.google.errorprone.annotations.CanIgnoreReturnValue"

  /** The canonical type text of the argument that suppresses the report. */
  const CompositeDisposableType: string := "io.reactivex.disposables.CompositeDisposable"

  const RectClass: string := "android.graphics.Rect"

  const RectExplanation: string :=
    "If the rectangles do not intersect, no change is made and the original rectangle is not modified. These methods return false to indicate that this has happened."

  /** The text appended for an unused `Rect.intersect`: ". " and the explanation. */
  const RectNote: string := ". " + RectExplanation

  /** `CHECK_RESULT` (id "CheckResult") or the permission detector's `CHECK_PERMISSION`. */
  datatype Issue = CheckResultIssue | CheckPermissionIssue

  /** An annotation occurrence: its identity, qualified name and `suggest` attribute. */
  datatype Annotation = Annotation(id: nat, qualifiedName: string, suggest: Option<string>)

  /** What the rule reads of the called method. */
  datatype MethodInfo = MethodInfo(returnsVoid: bool, containingClass: Option<string>)

  /**
   * The usage element in its tree, with what the host tells about it: the
   * canonical type text of each value argument of its call expression (None
   * when it has no call expression; None for an argument whose type is
   * unknown) and `JavaContext.getMethodName`.
   */
  datatype Usage = Usage(
    tree: Tree,
    element: NodeId,
    argumentTypes: Option<seq<Option<string>>>,
    methodName: Option<string>)

  /** A quick fix carrying data: `fix().data(suggested)`. */
  datatype Fix = DataFix(data: string)

  /** One call of `report`; the location is that of `element`. */
  datatype Report = Report(issue: Issue, element: NodeId, message: string, fix: Option<Fix>)

  predicate ValidUsage(u: Usage)
  {
    WellFormed(u.tree) && u.element in u.tree
  }

  // ---------------------------------------------------------------------------
  // Host and library helpers.

  /** `UastLintUtils.containsAnnotation`: some annotation has this qualified name. */
  predicate ContainsAnnotation(annotations: seq<Annotation>, qualifiedName: string)
  {
    exists i | 0 <= i < |annotations| :: annotations[i].qualifiedName == qualifiedName
  }

  /** `evaluator.isMemberInClass`. */
  predicate IsMemberInClass(callee: MethodInfo, className: string)
  {
    callee.containingClass == Some(className)
  }

  /** Kotlin's `String.startsWith`. */
  predicate StartsWith(s: string, prefix: string)
  {
    |prefix| <= |s| && s[..|prefix|] == prefix
  }

  /** `part` occurs in `s` starting at position `i`. */
  predicate OccursAt(s: string, part: string, i: nat)
  {
    i + |part| <= |s| && s[i..i + |part|] == part
  }

  /** Kotlin's `String.contains`. */
  predicate Contains(s: string, part: string)
  {
    exists i: nat | i <= |s| :: OccursAt(s, part, i)
  }

  /** What `String.format("%1$s", name)` prints: "null" for a missing name. */
  function NameText(name: Option<string>): string
  {
    match name
    case None => "null"
    case Some(n) => n
  }

  // ---------------------------------------------------------------------------
  // The rule.

  /**
   * `checkArguments`: true when the usage has a call expression and one of its
   * arguments has exactly the type `CompositeDisposable`. (Its doc comment says
   * the opposite; the code is what is modelled.)
   */
  function CheckArguments(argumentTypes: Option<seq<Option<string>>>): (hasDisposable: bool)
    ensures hasDisposable <==>
      argumentTypes.Some? &&
      exists i | 0 <= i < |argumentTypes.value| :: argumentTypes.value[i] == Some(CompositeDisposableType)
  {
    match argumentTypes
    case None => false
    case Some(types) => Some(CompositeDisposableType) in types
  }

  /** The method name qualifies for the permission issue. */
  predicate IsPermissionCheckName(name: Option<string>)
  {
    name.Some? && StartsWith(name.value, "check") && Contains(name.value, "Permission")
  }

  /** "The result of `name` is not used". */
  function BaseMessage(name: Option<string>): string
  {
    "The result of `" + NameText(name) + "` is not used"
  }

  /** "The result of `name` is not used; did you mean to call `suggested`?" */
  function SuggestionMessage(name: Option<string>, suggested: string): string
  {
    "The result of `" + NameText(name) + "` is not used; did you mean to call `" + suggested + "`?"
  }

  /** What a report about this usage must say: its issue, location, message and fix. */
  ghost predicate DescribesReport(r: Report, u: Usage, callee: MethodInfo, annotation: Annotation)
  {
    r.element == u.element &&
    (r.issue == CheckPermissionIssue <==> IsPermissionCheckName(u.methodName)) &&
    r.message ==
      (match annotation.suggest
       case Some(s) => SuggestionMessage(u.methodName, s)
       case None =>
         if u.methodName == Some("intersect") && IsMemberInClass(callee, RectClass)
         then BaseMessage(u.methodName) + RectNote
         else BaseMessage(u.methodName)) &&
    (r.fix.Some? <==> annotation.suggest.Some?) &&
    (r.fix.Some? ==> r.fix.value.data == annotation.suggest.value)
  }

  /**
   * `checkResult`: report the usage when its value is unused, neither the member
   * nor its class opts out with the can-ignore marker and the method is not void.
   */
  method CheckResult(
    u: Usage, callee: MethodInfo, annotation: Annotation,
    memberAnnotations: seq<Annotation>, classAnnotations: seq<Annotation>)
    returns (report: Option<Report>)
    requires ValidUsage(u)
    ensures report.Some? <==>
      ValueUnused(u.tree, u.element) &&
      !ContainsAnnotation(memberAnnotations, CanIgnoreReturnValue) &&
      !ContainsAnnotation(classAnnotations, CanIgnoreReturnValue) &&
      !callee.returnsVoid
    ensures report.Some? ==> DescribesReport(report.value, u, callee, annotation)
  {
    var unused := IsExpressionValueUnused(u.tree, u.element);
    if !unused {
      return None;
    }
    var memberHasAnnotation := ContainsAnnotation(memberAnnotations, CanIgnoreReturnValue);
    var classHasAnnotation := ContainsAnnotation(classAnnotations, CanIgnoreReturnValue);
    if memberHasAnnotation || classHasAnnotation {
      return None;
    }
    if callee.returnsVoid {
      return None;
    }

    var methodName := u.methodName;
    var suggested := annotation.suggest;

    var issue := CheckResultIssue;
    if methodName.Some? && StartsWith(methodName.value, "check") && Contains(methodName.value, "Permission") {
      issue := CheckPermissionIssue;
    }

    var message := BaseMessage(methodName);
    if suggested.Some? {
      message := SuggestionMessage(methodName, suggested.value);
    } else if methodName == Some("intersect") && IsMemberInClass(callee, RectClass) {
      message := message + RectNote;
    }

    var fix := if suggested.Some? then Some(DataFix(suggested.value)) else None;
    report := Some(Report(issue, u.element, message, fix));
  }

  /**
   * `visitAnnotationUsage`: the gate in front of `checkResult`. It stops on a
   * missing method, an annotation inherited from the package, the can-ignore
   * marker itself and a `CompositeDisposable` argument.
   */
  method VisitAnnotationUsage(
    u: Usage, annotation: Annotation, qualifiedName: string, callee: Option<MethodInfo>,
    memberAnnotations: seq<Annotation>, classAnnotations: seq<Annotation>,
    packageAnnotations: seq<Annotation>)
    returns (report: Option<Report>)
    requires ValidUsage(u)
    ensures (callee.None? || annotation in packageAnnotations ||
             qualifiedName == CanIgnoreReturnValue || CheckArguments(u.argumentTypes)) ==> report.None?
    ensures report.Some? <==>
      callee.Some? && annotation !in packageAnnotations &&
      qualifiedName != CanIgnoreReturnValue && !CheckArguments(u.argumentTypes) &&
      ValueUnused(u.tree, u.element) &&
      !ContainsAnnotation(memberAnnotations, CanIgnoreReturnValue) &&
      !ContainsAnnotation(classAnnotations, CanIgnoreReturnValue) &&
      !callee.value.returnsVoid
    ensures report.Some? ==> DescribesReport(report.value, u, callee.value, annotation)
  {
    if callee.None? {
      return None;
    }
    if annotation in packageAnnotations {
      return None;
    }
    if qualifiedName == CanIgnoreReturnValue {
      return None;
    }
    if CheckArguments(u.argumentTypes) {
      return None;
    }
    report := CheckResult(u, callee.value, annotation, memberAnnotations, classAnnotations);
  }

  // ---------------------------------------------------------------------------
  // Properties of the reports.

  /** The suggestion message extends the base message. */
  lemma SuggestionExtendsBase(name: Option<string>, suggested: string)
    ensures SuggestionMessage(name, suggested) ==
            BaseMessage(name) + "; did you mean to call `" + suggested + "`?"
  {
  }

  /** Every message opens with "The result of `name` is not used". */
  lemma MessageStartsWithBase(r: Report, u: Usage, callee: MethodInfo, annotation: Annotation)
    requires DescribesReport(r, u, callee, annotation)
    ensures BaseMessage(u.methodName) <= r.message
  {
  }

  /**
   * The three message forms differ right after the base text (';', '.' or the
   * end), so a message tells which branch produced it.
   */
  lemma MessageFormsAreDistinct(name: Option<string>, suggested: string)
    ensures SuggestionMessage(name, suggested) != BaseMessage(name) + RectNote
    ensures SuggestionMessage(name, suggested) != BaseMessage(name)
    ensures BaseMessage(name) + RectNote != BaseMessage(name)
  {
    var base := BaseMessage(name);
    SuggestionExtendsBase(name, suggested);
    var withSuggestion := base + "; did you mean to call `" + suggested + "`?";
    var withNote := base + RectNote;
    assert withSuggestion[|base|] == ';';
    assert RectNote[0] == '.';
    assert withNote[|base|] == RectNote[0];
  }
}
