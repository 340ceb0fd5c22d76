/**
  Properties of the @ScriptURI pass that relate several calls or several
  inputs: the source-URI policy, the synthesised initializer, the order of
  the checks and the wording of the diagnostics.
*/
module ScriptUriProperties {
  import opened Wrappers
  import opened Ast
  import opened Uris
  import opened Diagnostics
  import opened ScriptUriTransformation

  // ---- the synthesised initializer ----

  /** The synthesised initializer names its URI: different URIs give different expressions. */
  lemma GetExpressionInjective(u: Uri, v: Uri)
    requires GetExpression(u) == GetExpression(v)
    ensures u == v
  {
  }

  /** Only `URI.create("<s>")` is recognised as the literal `s`. */
  lemma UriLiteralOnlyFromCreate(e: Expr, s: string)
    requires UriLiteral(e) == Some(s)
    ensures e == GetExpression(Uri(s))
  {
  }

  /**
    A rewrite as `Visit` and the handlers describe it is exactly the setter
    applied to the synthesised initializer: the node is pinned down completely.
  */
  lemma RewrittenIsSetInitializer(before: AnnotatedNode, errors: seq<Diagnostic>, r: VisitResult, u: Uri)
    requires Rewritten(before, errors, r, u)
    ensures before.Declaration? || before.Field?
    ensures r.target == SetInitializer(before, GetExpression(u))
  {
    UriLiteralOnlyFromCreate(Initializer(r.target).value, ToString(u));
    assert Uri(ToString(u)) == u;
    SlotAndRestDetermineNode(r.target, SetInitializer(before, GetExpression(u)));
  }

  // ---- the source-URI policy ----

  /**
    With the working-directory URI absolute and java.net.URI.resolve keeping an
    absolute reference, the fallback for a relative source URI yields the
    working-directory URI itself: the source's own path is lost.
  */
  lemma RelativeFallbackIsWorkingDirectory(node: AnnotationNode, uri: Option<Uri>, env: Environment)
    requires AbsoluteReferenceWins(env.sem) && env.sem.isAbsolute(env.cwdBase)
    requires uri.Some? && !env.sem.isAbsolute(uri.value) && !AllowsRelative(node)
    ensures GetSourceUri(node, uri, env) == Some(env.cwdBase)
  {
  }

  /**
    Under the same hypotheses the stored URI is absolute unless the annotation
    allows relative URIs, in which case it is the unchanged source URI.
  */
  lemma StoredUriAbsoluteUnlessAllowed(node: AnnotationNode, uri: Option<Uri>, env: Environment)
    requires AbsoluteReferenceWins(env.sem) && env.sem.isAbsolute(env.cwdBase)
    ensures var r := GetSourceUri(node, uri, env);
      r.Some? && !env.sem.isAbsolute(r.value) ==> AllowsRelative(node) && r == uri
  {
  }

  /** Under the same hypotheses applying the policy to its own result changes nothing. */
  lemma GetSourceUriIdempotent(node: AnnotationNode, uri: Option<Uri>, env: Environment)
    requires AbsoluteReferenceWins(env.sem) && env.sem.isAbsolute(env.cwdBase)
    ensures GetSourceUri(node, GetSourceUri(node, uri, env), env) == GetSourceUri(node, uri, env)
  {
  }

  /**
    Only a constant `true` keeps a relative URI: a missing member (the
    annotation's default is false), a non-constant member, or the string
    "true" all lead to the working-directory fallback.
  */
  lemma AllowRelativeNeedsConstantTrue(node: AnnotationNode)
    ensures AllowsRelative(node)
      <==> AllowRelativeMember in node.members
           && node.members[AllowRelativeMember] == ConstantExpression(BoolValue(true))
    ensures AllowRelativeMember in node.members
            && node.members[AllowRelativeMember] == ConstantExpression(StringValue("true"))
      ==> !AllowsRelative(node)
  {
  }

  /**
    A local declaration with nothing assigned, in a unit whose source URI is
    the absolute `file:/tmp/a.src`, is rewritten to `URI.create("file:/tmp/a.src")`.
  */
  lemma AbsoluteFileUriScenario(anno: AnnotationNode, span: Span, env: Environment)
    requires anno.classNode == ScriptUriType
    requires env.sem.isAbsolute(Uri("file:/tmp/a.src"))
    ensures Visit([Annotation(anno), Annotated(Declaration(false, EmptyExpression, span))],
                  SourceUnit(Some(Uri("file:/tmp/a.src")), []), env)
         == Visited(Declaration(false, GetExpression(Uri("file:/tmp/a.src")), span), [])
  {
  }

  // ---- order of the checks ----

  /**
    A declaration rejected for its syntax is rejected before the source URI is
    looked at: the outcome is the same whatever the source URI and environment.
  */
  lemma DeclarationSyntaxCheckedBeforeUri(de: AnnotatedNode, node: AnnotationNode, errors: seq<Diagnostic>,
                                          u1: Option<Uri>, env1: Environment, u2: Option<Uri>, env2: Environment)
    requires de.Declaration?
    requires de.multipleAssignment || Initializer(de).Some?
    ensures SetScriptUriOnDeclaration(de, node, SourceUnit(u1, errors), env1)
         == SetScriptUriOnDeclaration(de, node, SourceUnit(u2, errors), env2)
  {
  }

  /** The same for a field that already has an initial value. */
  lemma FieldSyntaxCheckedBeforeUri(field: AnnotatedNode, node: AnnotationNode, errors: seq<Diagnostic>,
                                    u1: Option<Uri>, env1: Environment, u2: Option<Uri>, env2: Environment)
    requires field.Field? && field.initialExpression.Some?
    ensures SetScriptUriOnField(field, node, SourceUnit(u1, errors), env1)
         == SetScriptUriOnField(field, node, SourceUnit(u2, errors), env2)
  {
  }

  /**
    A site the pass has rewritten is not rewritten again: visiting it a second
    time reports "variable assignment" and leaves the new initializer in place.
  */
  lemma RevisitReportsAssignment(anno: AnnotationNode, target: AnnotatedNode, source: SourceUnit, env: Environment)
    requires Visit([Annotation(anno), Annotated(target)], source, env).Visited?
    requires Visit([Annotation(anno), Annotated(target)], source, env).target != target
    ensures var rewritten := Visit([Annotation(anno), Annotated(target)], source, env).target;
      Reported(rewritten, source.errors, Visit([Annotation(anno), Annotated(rewritten)], source, env),
               VariableAssignmentMessage)
  {
  }

  // ---- the decision table ----

  /** The annotated node has an empty slot the pass may fill: a plain declaration or a field. */
  predicate Fillable(n: AnnotatedNode)
  {
    || (n.Declaration? && !n.multipleAssignment && n.rightExpression.EmptyExpression?)
    || (n.Field? && n.initialExpression.None?)
  }

  /** The site is ours and can be rewritten: a fillable node in a unit with a source URI. */
  predicate Rewrites(site: seq<AstNode>, uri: Option<Uri>)
  {
    && IsAnnotationSite(site)
    && site[0].annotation.classNode == ScriptUriType
    && Fillable(site[1].node)
    && uri.Some?
  }

  /** The site is ours and cannot be rewritten, so it is reported. */
  predicate Rejects(site: seq<AstNode>, uri: Option<Uri>)
  {
    && IsAnnotationSite(site)
    && site[0].annotation.classNode == ScriptUriType
    && !(Fillable(site[1].node) && uri.Some?)
  }

  /** The annotated node as the table says it ends up. */
  function ExpectedTarget(site: seq<AstNode>, uri: Option<Uri>, env: Environment): AnnotatedNode
    requires IsAnnotationSite(site)
  {
    if Rewrites(site, uri)
    then SetInitializer(site[1].node, GetExpression(GetSourceUri(site[0].annotation, uri, env).value))
    else site[1].node
  }

  /**
    The pass follows the decision table: a well-shaped site is reported
    exactly when it is rejected, rewritten exactly when the table says so,
    and the table never consults `allowRelative` or the environment to decide
    between the two.
  */
  lemma VisitFollowsDecisionTable(site: seq<AstNode>, source: SourceUnit, env: Environment)
    requires IsAnnotationSite(site)
    ensures var r := Visit(site, source, env);
      && r.Visited?
      && r.target == ExpectedTarget(site, source.uri, env)
      && r.errors[..|source.errors|] == source.errors
      && |r.errors| == |source.errors| + (if Rejects(site, source.uri) then 1 else 0)
  {
  }

  // ---- the diagnostics ----

  /** `t` occurs somewhere inside `s`. */
  predicate Contains(s: string, t: string)
  {
    exists i :: 0 <= i <= |s| && t <= s[i..]
  }


  /** The wrong-target diagnostic mentions the declaration statement it expected. */
  lemma WrongTargetMessageNamesCause()
    ensures Contains(WrongTargetMessage, "declaration statement")
  {
    assert "declaration statement" <= WrongTargetMessage[49..];
  }

  /** The first declaration check's diagnostic mentions multiple assignment. */
  lemma MultipleAssignmentMessageNamesCause()
    ensures Contains(MultipleAssignmentMessage, "multiple assignment")
  {
    assert "multiple assignment" <= MultipleAssignmentMessage[41..];
  }

  /** The diagnostic for an occupied initializer slot mentions variable assignment. */
  lemma VariableAssignmentMessageNamesCause()
    ensures Contains(VariableAssignmentMessage, "variable assignment")
  {
    assert "variable assignment" <= VariableAssignmentMessage[41..];
  }

  /** Both missing-URI diagnostics say that the URI could not be obtained. */
  lemma NoUriMessagesNameCause()
    ensures Contains(NoScriptUriMessage, "Unable to get the URI")
    ensures Contains(NoClassUriMessage, "Unable to get the URI")
  {
    assert "Unable to get the URI" <= NoScriptUriMessage[0..];
    assert "Unable to get the URI" <= NoClassUriMessage[0..];
  }

  /** The five messages are pairwise different, so a diagnostic tells which check failed. */
  lemma MessagesDistinguishCauses()
    ensures WrongTargetMessage != MultipleAssignmentMessage
    ensures WrongTargetMessage != VariableAssignmentMessage
    ensures WrongTargetMessage != NoScriptUriMessage
    ensures WrongTargetMessage != NoClassUriMessage
    ensures MultipleAssignmentMessage != VariableAssignmentMessage
    ensures MultipleAssignmentMessage != NoScriptUriMessage
    ensures MultipleAssignmentMessage != NoClassUriMessage
    ensures VariableAssignmentMessage != NoScriptUriMessage
    ensures VariableAssignmentMessage != NoClassUriMessage
    ensures NoScriptUriMessage != NoClassUriMessage
  {
  }
}
