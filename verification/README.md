# @ScriptURI annotation pass — a Dafny model

Groovy's `@ScriptURI` annotation marks a local variable declaration or a
field that should hold the URI of the source being compiled. During semantic
analysis the transformation `ScriptURIASTTransformation` visits each
annotation site and either

- sets the empty initializer of the declaration or field to
  `URI.create("<uri of this source>")`, or
- reports one non-fatal syntax error anchored at the annotated node and
  leaves the node alone.

A site that is not shaped `[AnnotationNode, AnnotatedNode]` is a bug in the
host compiler and raises an internal error instead. An annotation of another
type is ignored.

The model is a set of pure functions over immutable datatypes:

- `wrappers.dfy` — `Option`, standing for a Java reference that may be null.
- `ast.dfy` — spans, constants, the few expression forms the pass reads or
  builds, annotation nodes and annotated nodes (declaration, field, other).
  It also gives the initializer slot of a node and the setter that fills it.
- `uris.dfy` — `java.net.URI` as its string form. `isAbsolute` and
  `resolve` are uninterpreted functions supplied by the caller.
- `diagnostics.dfy` — the append-only error collector.
- `script_uri_transformation.dfy` — the pass: `Visit`, the two handlers,
  `GetSourceUri`, `GetExpression`, `MemberHasValue`.
- `script_uri_properties.dfy` — lemmas relating several calls: the URI
  policy, the order of the checks, the synthesised expression and the
  diagnostics' wording.
- `annotation_sites.dfy` — the pass run over all sites of one source unit
  with a shared collector. A rejected site never hides a later one.

`script_uri_properties.dfy` also holds a decision table written
independently of the pass. It says which sites are rewritten and which are
reported, and a lemma proves the pass follows it.

Three facts about the code shape the model:

- Every `DeclarationExpression` is handed to the declaration handler
  (ScriptURIASTTransformation.java lines 70-71). The handler itself checks
  that the right-hand side is empty (line 85).
- Both missing-URI messages begin with a capital "Unable" (lines 93 and 110).
- A relative source URI that is not allowed is handled by the call
  `uri.resolve(cwdBase)`, with the relative URI as the receiver (line 134).
  It does not resolve the relative URI against the working directory.
  `java.net.URI.resolve` returns its argument when that argument is already
  absolute (section 5.2 of RFC 2396). So the fallback gives the
  working-directory URI itself. `RelativeFallbackIsWorkingDirectory` states
  this under that hypothesis (`Uris.AbsoluteReferenceWins`). The model keeps
  the call as written.

## Model

| member | source | states |
|---|---|---|
| ScriptUriTransformation.Visit | src/main/org/codehaus/groovy/transform/ScriptURIASTTransformation.java:60-77 | A malformed site, and only a malformed site, is an internal error with no diagnostic. A foreign annotation leaves node and collector untouched. Any other annotated node gets exactly the wrong-target diagnostic and no change. Declarations and fields go to their handlers. Every outcome adds at most one diagnostic, keeps earlier ones, and never both rewrites and reports. |
| ScriptUriTransformation.SetScriptUriOnDeclaration | src/main/org/codehaus/groovy/transform/ScriptURIASTTransformation.java:79-99 | Checks run in order and the first failure wins: multiple assignment, then an occupied right-hand side, then a missing source URI. Each failure adds exactly its own diagnostic at the declaration and changes nothing. Otherwise no diagnostic is added and only the empty right-hand side changes, to `URI.create` of the resolved URI. |
| ScriptUriTransformation.SetScriptUriOnField | src/main/org/codehaus/groovy/transform/ScriptURIASTTransformation.java:101-116 | An existing initial value is rejected first, then a missing source URI ("this class"). There is no multiple-assignment check. On failure the initial value stays absent. On success only the initializer is set, to `URI.create` of the resolved URI. |
| ScriptUriTransformation.GetExpression | src/main/org/codehaus/groovy/transform/ScriptURIASTTransformation.java:118-121 | The synthesised initializer is recognised as `URI.create` of exactly the URI's string form, and it is never the empty expression. |
| ScriptUriTransformation.GetSourceUri | src/main/org/codehaus/groovy/transform/ScriptURIASTTransformation.java:123-139 | An absent source URI stays absent and a present one always yields a URI. An absolute URI, or any URI when relative ones are allowed, is kept. Otherwise the result is `uri.resolve(cwdBase)`, receiver first. |
| ScriptUriTransformation.MemberHasValue | src/main/org/codehaus/groovy/transform/ScriptURIASTTransformation.java:145-148 | A missing member or a non-constant member never has the value. Otherwise the member has the value exactly when it is that constant. |
| Diagnostics.AddError | src/main/org/codehaus/groovy/transform/ScriptURIASTTransformation.java:150-157 | Reporting appends exactly one diagnostic and keeps all earlier ones. The new diagnostic's text is the message plus a newline, and it carries the node's full span. |
| Ast.SetInitializer | src/main/org/codehaus/groovy/transform/ScriptURIASTTransformation.java:95-114 | Filling the slot of a declaration or field changes nothing but the slot and the slot then holds the new expression. |
| Ast.SlotAndRestDetermineNode | src/main/org/codehaus/groovy/transform/ScriptURIASTTransformation.java:95-97 | The slot together with the rest of the node determines the node, so "only the slot changed" pins down the rewritten node. |
| ScriptUriProperties.RewrittenIsSetInitializer | src/main/org/codehaus/groovy/transform/ScriptURIASTTransformation.java:95-114 | A rewrite as the handlers describe it is exactly the setter applied to a declaration or field with the synthesised `URI.create` initializer, so the rewritten node is fully determined. |
| ScriptUriProperties.GetExpressionInjective | src/main/org/codehaus/groovy/transform/ScriptURIASTTransformation.java:118-121 | Different URIs give different synthesised initializers, and equal URIs give identical ones. |
| ScriptUriProperties.UriLiteralOnlyFromCreate | src/main/org/codehaus/groovy/transform/ScriptURIASTTransformation.java:118-121 | Only the expression `URI.create("<s>")` is read back as the literal `s`. |
| ScriptUriProperties.RelativeFallbackIsWorkingDirectory | src/main/org/codehaus/groovy/transform/ScriptURIASTTransformation.java:127-134 | If the working-directory URI is absolute and resolve returns an absolute argument unchanged, a relative source URI that is not allowed becomes the working-directory URI itself. |
| ScriptUriProperties.StoredUriAbsoluteUnlessAllowed | src/main/org/codehaus/groovy/transform/ScriptURIASTTransformation.java:123-139 | Under the same hypotheses the stored URI is absolute unless `allowRelative` is a constant true. In that case it is the unchanged source URI. |
| ScriptUriProperties.AbsoluteFileUriScenario | src/main/org/codehaus/groovy/transform/ScriptURIASTTransformation.java:90-97 | A declaration with nothing assigned, in a unit whose absolute source URI is `file:/tmp/a.src`, gets the initializer `URI.create("file:/tmp/a.src")` and no diagnostic. |
| ScriptUriProperties.GetSourceUriIdempotent | src/main/org/codehaus/groovy/transform/ScriptURIASTTransformation.java:123-139 | Under the same hypotheses, applying the URI policy to its own result changes nothing. |
| ScriptUriProperties.AllowRelativeNeedsConstantTrue | src/main/org/codehaus/groovy/transform/ScriptURIASTTransformation.java:145-148 | Relative URIs are kept exactly when `allowRelative` is the boolean constant true. A missing member means false, matching the annotation's default, and the string "true" does not count. |
| ScriptUriProperties.DeclarationSyntaxCheckedBeforeUri | src/main/org/codehaus/groovy/transform/ScriptURIASTTransformation.java:79-90 | A declaration rejected for multiple assignment or an existing right-hand side gets the same outcome whatever the source URI and environment. The URI is never consulted. |
| ScriptUriProperties.FieldSyntaxCheckedBeforeUri | src/main/org/codehaus/groovy/transform/ScriptURIASTTransformation.java:101-107 | A field with an initial value gets the same outcome whatever the source URI and environment. |
| ScriptUriProperties.RevisitReportsAssignment | src/main/org/codehaus/groovy/transform/ScriptURIASTTransformation.java:85-97 | A node the pass has rewritten, if visited again, gets the "variable assignment" diagnostic and keeps its initializer. |
| ScriptUriProperties.VisitFollowsDecisionTable | src/main/org/codehaus/groovy/transform/ScriptURIASTTransformation.java:66-116 | Against an independent decision table, a well-shaped site is reported exactly when it is ours and not a fillable declaration or field in a unit with a URI. It is rewritten exactly when it is ours, fillable, and the unit has a URI. Whether a site is reported never depends on `allowRelative` or on the environment. |
| ScriptUriProperties.WrongTargetMessageNamesCause | src/main/org/codehaus/groovy/transform/ScriptURIASTTransformation.java:75 | The wrong-target message mentions "declaration statement". |
| ScriptUriProperties.MultipleAssignmentMessageNamesCause | src/main/org/codehaus/groovy/transform/ScriptURIASTTransformation.java:81 | The multiple-assignment message mentions "multiple assignment". |
| ScriptUriProperties.VariableAssignmentMessageNamesCause | src/main/org/codehaus/groovy/transform/ScriptURIASTTransformation.java:86 | The occupied-slot message mentions "variable assignment". |
| ScriptUriProperties.NoUriMessagesNameCause | src/main/org/codehaus/groovy/transform/ScriptURIASTTransformation.java:93-110 | Both missing-URI messages contain "Unable to get the URI". |
| ScriptUriProperties.MessagesDistinguishCauses | src/main/org/codehaus/groovy/transform/ScriptURIASTTransformation.java:75-110 | All ten pairs of the five messages differ, so a diagnostic tells which check failed. |
| AnnotationSites.CollectorAppendOnly | src/main/org/codehaus/groovy/transform/ScriptURIASTTransformation.java:150-157 | What a site does to its node and what it adds to the collector do not depend on diagnostics collected earlier. |
| AnnotationSites.VisitStep | src/main/org/codehaus/groovy/transform/ScriptURIASTTransformation.java:60-77 | One visit against any collector: a malformed site is an internal error. A well-shaped site ends as the decision table says, adds a diagnostic exactly when it is rejected, and keeps earlier diagnostics. |
| AnnotationSites.VisitAll | src/main/org/codehaus/groovy/transform/ScriptURIASTTransformation.java:150-157 | Visiting the sites of a unit in turn aborts exactly when some site is malformed. Otherwise each node ends as the decision table says for its own site, whatever the other sites did. One diagnostic is added per rejected site, and earlier diagnostics are always kept. |

## Left out

- `java.net.URI` is represented by its string form, and `toString` returns that string. `isAbsolute` and `resolve` are uninterpreted. Properties that depend on resolution take section 5.2 of RFC 2396 as an explicit hypothesis.
- `new File(".").toURI()` reads the process's working directory. It becomes the `cwdBase` field of the environment.
- The `sourceUnit` field and the `getSourceUnit` accessor (lines 58 and 141-143) are ambient state. The source URI and the collector are passed in and returned explicitly. The null source unit mentioned at line 151 is not modelled.
- `GroovyBugError` is modelled as the `InternalError` outcome. Its message, which renders the node array, is left out.
- `SyntaxErrorMessage` and `SyntaxException` are reduced to a message and a span. Other formatting by the error collector is not modelled.
- The identity of annotation types (`ClassNode.equals`) is modelled as equality of fully-qualified names.
- A constant member whose value is null would make `memberHasValue` throw. The model's constants are never null.
- The generated `URI.create` call may fail at run time. That happens after compilation, outside the pass.
- The annotation declaration `groovy/transform/ScriptURI.java` contributes only its default `allowRelative = false`. The model gets the same default because a missing member never has a value.
- The host compiler's loop over annotation sites is modelled only within one source unit, by `AnnotationSites.VisitAll`. Phase scheduling and other transformations are not modelled.
- AnnotationSites.VisitAll: every site is assumed to annotate a node of its own. The compiler rewrites nodes in place (lines 97 and 114), so a second `@ScriptURI` on an already-rewritten node would be reported for variable assignment (lines 85-86). The driver does not track node identity and gives each site its own copy, so it does not show this. `RevisitReportsAssignment` states this behaviour for one node visited twice.
