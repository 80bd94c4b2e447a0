# CheckArgsAndResult lint rule, modelled in Dafny

This project models the lint detector `CheckArgsAndResultDetector`. The detector
is a variant of Android lint's `CheckResultDetector`. It reports a call to a method
annotated with `@CheckArgsAndResult` whose result is discarded. The one addition
is that the call is let through when one of its arguments is an RxJava
`CompositeDisposable`: the subscription is then tracked by that container, so
dropping the returned `Disposable` is harmless.

The model has three parts.

- **The gate** (`visitAnnotationUsage`). It stops on a missing method, on an
  annotation inherited from the package, on the error-prone
  `@CanIgnoreReturnValue` marker, and on a `CompositeDisposable` argument.
- **The reporting decision** (`checkResult`). The call is reported when its value
  is unused, neither the member nor its class carries `@CanIgnoreReturnValue`,
  and the method is not void. The decision also picks the issue (the permission
  issue for `check…Permission…` names), the message and the optional fix.
- **The upward walk** (`isExpressionValueUnused`). It starts at the enclosing
  expression, climbs through qualified references `a.b` whose selector is the
  node below, and classifies the node it lands in. A Kotlin block passes the
  value of its last statement up to the block's parent.

The host tool's syntax tree is replaced by a small abstract tree (module `Uast`).
Each node has a kind, a parent and a depth. In a well-formed tree every parent
is strictly shallower than its child, so the loop and the recursion of the walk
terminate. Host services are plain inputs of `Usage`, `MethodInfo` and
`Annotation`:

- the method name (`JavaContext.getMethodName`);
- the argument type texts (`getUCallExpression`, `getExpressionType`);
- the `suggest` attribute (`getAnnotationStringValue`);
- the containing class (`isMemberInClass`);
- "returns void".

Files:

- `wrappers.dfy`: `Option`.
- `uast.dfy`: the tree, `getParentOfType` and `List.indexOf`.
- `value_usage.dfy`: the walk, as a specification function `ValueUnused` and the
  loop-and-tail-call method `IsExpressionValueUnused`, with lemmas about each branch.
- `detector.dfy`: the gate and the reporting decision.
- `scenarios.dfy`: the two annotated calls of `TestClass.initialize`.

The doc comment of `checkArguments` (CheckArgsAndResultDetector.kt:57) says that it
returns true when there is *no* `CompositeDisposable`. The code (line 64) returns
true when there *is* one, and `visitAnnotationUsage` returns early on true. The
model follows the code. The usage sample agrees with the code: the call without
`cd` is reported, the call with `cd` is not.

## Model

| member | source | states |
|---|---|---|
| `Uast.EnclosingExpression` | customLint/src/main/java/com/example/customlint/CheckArgsAndResultDetector.kt:135-137 | the result, when present, is an expression at or above the element and no deeper; it is the element itself exactly when the element is an expression |
| `Uast.EnclosingExpressionIsNearest` | customLint/src/main/java/com/example/customlint/CheckArgsAndResultDetector.kt:135-137 | the result is the nearest expression: absent exactly when no node at or above the element is an expression, and no expression lies strictly between the element and the result |
| `Uast.IndexOf` | customLint/src/main/java/com/example/customlint/CheckArgsAndResultDetector.kt:166-167 | -1 exactly when the expression is not among the block's statements; otherwise a position holding it with no earlier occurrence |
| `ValueUsage.Climb` | customLint/src/main/java/com/example/customlint/CheckArgsAndResultDetector.kt:139-143 | the climb only passes qualified references whose selector is the node below (a selector chain); it stops at a node whose parent is not such a reference, never deeper than where it started |
| `ValueUsage.ClimbFindsChainTop` | customLint/src/main/java/com/example/customlint/CheckArgsAndResultDetector.kt:140-143 | if a selector chain leads to a node whose parent is not a qualified reference with it as selector, the climb stops exactly there |
| `ValueUsage.ClimbReachesRoot` | customLint/src/main/java/com/example/customlint/CheckArgsAndResultDetector.kt:139-142 | if a selector chain leads to a node with no parent, the climb reports the missing parent |
| `ValueUsage.IsExpressionValueUnused` | customLint/src/main/java/com/example/customlint/CheckArgsAndResultDetector.kt:134-196 | the loop over `prev`/`curr` followed by the case analysis and the tail call computes `ValueUnused` |
| `ValueUsage.LastStatementIndex` | customLint/src/main/java/com/example/customlint/CheckArgsAndResultDetector.kt:166-174 | the index is found and is not below `size - 1` exactly when the expression is the last statement and occurs nowhere before it |
| `ValueUsage.NoEnclosingExpressionIsUnused` | customLint/src/main/java/com/example/customlint/CheckArgsAndResultDetector.kt:135-137 | an element with no expression at or above it is unused |
| `ValueUsage.MissingParentIsUnused` | customLint/src/main/java/com/example/customlint/CheckArgsAndResultDetector.kt:139-142 | when the selector chain above the enclosing expression ends at a node with no parent, the value is unused |
| `ValueUsage.KotlinLambdaBodyIsUsed` | customLint/src/main/java/com/example/customlint/CheckArgsAndResultDetector.kt:146-152 | a statement of a Kotlin block that is a lambda body counts as used, whatever its position |
| `ValueUsage.NonLastStatementIsUnused` | customLint/src/main/java/com/example/customlint/CheckArgsAndResultDetector.kt:164-174 | in any other block, a statement that is absent or is not the last statement is unused |
| `ValueUsage.JavaStatementIsUnused` | customLint/src/main/java/com/example/customlint/CheckArgsAndResultDetector.kt:176-179 | a statement of a Java block is always unused |
| `ValueUsage.BodyOfMethodOrInitializerIsUnused` | customLint/src/main/java/com/example/customlint/CheckArgsAndResultDetector.kt:181-185 | a statement of a block whose parent is a method or a class initializer is always unused |
| `ValueUsage.LastStatementOfRootBlockIsUnused` | customLint/src/main/java/com/example/customlint/CheckArgsAndResultDetector.kt:182 | a statement of a block without a parent is unused |
| `ValueUsage.LastStatementFollowsParent` | customLint/src/main/java/com/example/customlint/CheckArgsAndResultDetector.kt:181-186 | the last statement of a non-Java, non-lambda block under any other parent is unused exactly when that parent is unused, and the parent is strictly shallower than the element |
| `ValueUsage.ConstructorSiteIsUnused` | customLint/src/main/java/com/example/customlint/CheckArgsAndResultDetector.kt:187-188 | a value whose site is a constructor is unused |
| `ValueUsage.OtherSiteIsUsed` | customLint/src/main/java/com/example/customlint/CheckArgsAndResultDetector.kt:189-195 | a value whose site is neither a block nor a constructor is used |
| `ValueUsage.SelectorIsTransparent` | customLint/src/main/java/com/example/customlint/CheckArgsAndResultDetector.kt:140-142 | a selector expression `b()` is unused exactly when its qualified expression `a.b()` is |
| `ValueUsage.WalkDependsOnlyOnAncestors` | customLint/src/main/java/com/example/customlint/CheckArgsAndResultDetector.kt:134-196 | two trees that agree on the element and all its ancestors give the same answer: the walk only looks upward |
| `CheckArgsAndResultDetector.CheckArguments` | customLint/src/main/java/com/example/customlint/CheckArgsAndResultDetector.kt:59-65 | true exactly when there is a call expression and some argument's type text is exactly `io.reactivex.disposables.CompositeDisposable`; no call expression gives false, an unknown type never matches |
| `CheckArgsAndResultDetector.CheckResult` | customLint/src/main/java/com/example/customlint/CheckArgsAndResultDetector.kt:67-132 | one report exactly when the value is unused, neither member nor class annotations hold `CanIgnoreReturnValue` and the method is not void; the report is at the element, has the permission issue iff the name starts with "check" and contains "Permission", carries the suggestion, the `Rect.intersect` or the base message, and a fix exactly when there is a suggestion |
| `CheckArgsAndResultDetector.VisitAnnotationUsage` | customLint/src/main/java/com/example/customlint/CheckArgsAndResultDetector.kt:24-54 | nothing is reported for a missing method, a package annotation, the `CanIgnoreReturnValue` annotation itself or a `CompositeDisposable` argument; otherwise the outcome is that of `CheckResult` |
| `CheckArgsAndResultDetector.SuggestionExtendsBase` | customLint/src/main/java/com/example/customlint/CheckArgsAndResultDetector.kt:106-116 | the "did you mean to call" message is the base message followed by the suggestion clause |
| `CheckArgsAndResultDetector.MessageStartsWithBase` | customLint/src/main/java/com/example/customlint/CheckArgsAndResultDetector.kt:106-125 | every reported message begins with "The result of `name` is not used" |
| `CheckArgsAndResultDetector.MessageFormsAreDistinct` | customLint/src/main/java/com/example/customlint/CheckArgsAndResultDetector.kt:106-125 | the suggestion, `Rect` and base messages are pairwise different, so a message shows which branch chose it |
| `TestClassScenarios.FirstCallIsReported` | app/src/main/java/com/example/customlintannotation/TestClass.kt:17-19 | `textView.setRxOnClick { }`, not the last statement, is reported under `CheckResult` with the base message and no fix |
| `TestClassScenarios.SecondCallIsSuppressed` | app/src/main/java/com/example/customlintannotation/TestClass.kt:21-22 | `imageView.setRxOnClick(cd) { }` is not reported |
| `TestClassScenarios.SecondCallWithoutDisposableIsReported` | app/src/main/java/com/example/customlintannotation/TestClass.kt:21-22 | the same call without `cd` would be reported, since it ends a method body: the suppression is the argument's doing |

## Left out

- The `Issue` and `Implementation` metadata (CheckArgsAndResultDetector.kt:198-217) and the issue registry (CustomIssueRegistry.kt) are host configuration. Issues are the two values `CheckResultIssue` and `CheckPermissionIssue`.
- `applicableAnnotations` (line 22) only tells the host which annotation to dispatch. The model starts at the dispatched `visitAnnotationUsage`.
- The `type`, `referenced` and `annotations` parameters of `visitAnnotationUsage` are never read by the rule and are not modelled. `context` is used only through the host calls `context.evaluator.isMemberInClass`, `context.getLocation` and `report`, which are the inputs and outputs described below.
- `context.getLocation` and `report` are host output. A report records the element it is about instead of a source location.
- Host queries are inputs, not computations: `getUCallExpression` with argument type resolution, `JavaContext.getMethodName`, `getAnnotationStringValue`, `isMemberInClass` and `returnType == VOID`.
- `getParentOfType`, `isKotlin`/`isJava` and `indexOf` are modelled on the abstract tree. Node kinds beyond those the rule tests are folded into `OtherExpr` and `OtherDecl`.
- `UAnnotation` equality (used by `allPackageAnnotations.contains`) is modelled as equality of the `Annotation` value, whose `id` field stands for the annotation's identity.
- `String.format` is modelled as string concatenation, with a missing method name printed as "null".
- The click-listener helper `Ext.kt` (RxJava throttling, Android views) is UI plumbing and is not part of this model.
