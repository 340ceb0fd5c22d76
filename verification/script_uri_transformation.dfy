/**
  The @ScriptURI annotation pass. Given an annotation site, it either sets the
  initializer of the annotated declaration or field to
  `URI.create("<uri of this source>")`, or reports one diagnostic anchored at
  the annotated node and leaves it alone. A malformed site is an internal
  error of the host, not a diagnostic.
*/
module ScriptUriTransformation {
  import opened Wrappers
  import opened Ast
  import opened Uris
  import opened Diagnostics

  /** Fully-qualified name of the annotation type this pass owns. */
  const ScriptUriType: string := "groovy.transform.ScriptURI"
  /** The annotation's name as it appears in messages: "@" and its simple name. */
  const MyTypeName: string := "@ScriptURI"
  const UriType: string := "java.net.URI"
  const AllowRelativeMember: string := "allowRelative"

  const WrongTargetMessage: string :=
    "Expected to find the annotation " + MyTypeName + " on an declaration statement."
  const MultipleAssignmentMessage: string :=
    "Annotation " + MyTypeName + " not supported with multiple assignment notation."
  const VariableAssignmentMessage: string :=
    "Annotation " + MyTypeName + " not supported with variable assignment."
  const NoScriptUriMessage: string := "Unable to get the URI for the source of this script!"
  const NoClassUriMessage: string := "Unable to get the URI for the source of this class!"

  /** The compilation unit being processed: its recorded source URI and its error collector. */
  datatype SourceUnit = SourceUnit(uri: Option<Uri>, errors: seq<Diagnostic>)

  /** What the pass reads from outside the tree: the working-directory URI and URI semantics. */
  datatype Environment = Environment(cwdBase: Uri, sem: UriSemantics)

  /**
    The outcome of one visit: the host contract was broken (a GroovyBugError is
    thrown), or the annotated node as it now is together with the error collector.
  */
  datatype VisitResult =
    | InternalError
    | Visited(target: AnnotatedNode, errors: seq<Diagnostic>)

  /** The node array has the shape [annotation, annotated node]. */
  predicate IsAnnotationSite(nodes: seq<AstNode>)
  {
    |nodes| == 2 && nodes[0].Annotation? && nodes[1].Annotated?
  }

  /** `r` leaves `before` as it was and adds exactly one diagnostic `msg`, anchored at `before`. */
  ghost predicate Reported(before: AnnotatedNode, errors: seq<Diagnostic>, r: VisitResult, msg: string)
  {
    && r.Visited?
    && r.target == before
    && AppendedOne(errors, r.errors, before.span)
    && r.errors[|errors|].message == msg + "\n"
  }

  /**
    `r` reports nothing and fills the empty initializer slot of `before` with
    a call creating `u` from its string form; nothing else about the node changes.
  */
  ghost predicate Rewritten(before: AnnotatedNode, errors: seq<Diagnostic>, r: VisitResult, u: Uri)
  {
    && r.Visited?
    && r.errors == errors
    && Initializer(before).None?
    && Initializer(r.target).Some?
    && UriLiteral(Initializer(r.target).value) == Some(ToString(u))
    && ClearInitializer(r.target) == ClearInitializer(before)
  }

  /**
    Recognises the synthesised initializer `URI.create("<s>")` and gives back `s`;
    any other expression yields None.
  */
  function UriLiteral(e: Expr): Option<string>
  {
    match e
    case StaticMethodCallExpression(owner, name, args) =>
      if owner == UriType && name == "create" && |args| == 1
         && args[0].ConstantExpression? && args[0].value.StringValue?
      then Some(args[0].value.s)
      else None
    case _ => None
  }

  /**
    The annotation declares member `name` as a constant equal to `value`. A
    missing member or a non-constant one does not have the value.
  */
  function MemberHasValue(node: AnnotationNode, name: string, value: Value): (r: bool)
    ensures name !in node.members ==> !r
    ensures name in node.members && !node.members[name].ConstantExpression? ==> !r
    ensures r <==> name in node.members && node.members[name] == ConstantExpression(value)
  {
    name in node.members
    && node.members[name].ConstantExpression?
    && node.members[name].value == value
  }

  /** The annotation asks for a relative source URI to be kept as it is. */
  predicate AllowsRelative(node: AnnotationNode)
  {
    MemberHasValue(node, AllowRelativeMember, BoolValue(true))
  }

  /**
    The URI to store: none when the source has no URI; the source URI itself
    when it is absolute or relative URIs are allowed; otherwise the source
    URI's `resolve` applied to the working-directory URI.
  */
  function GetSourceUri(node: AnnotationNode, uri: Option<Uri>, env: Environment): (r: Option<Uri>)
    ensures r.None? <==> uri.None?
    ensures uri.Some? && env.sem.isAbsolute(uri.value) ==> r == uri
    ensures uri.Some? && AllowsRelative(node) ==> r == uri
    ensures uri.Some? && !env.sem.isAbsolute(uri.value) && !AllowsRelative(node)
      ==> r == Some(env.sem.resolve(uri.value, env.cwdBase))
  {
    if uri.Some? && !(env.sem.isAbsolute(uri.value) || AllowsRelative(node))
    then Some(env.sem.resolve(uri.value, env.cwdBase))
    else uri
  }

  /** The synthesised initializer `URI.create("<u as a string>")`. */
  function GetExpression(u: Uri): (e: Expr)
    ensures UriLiteral(e) == Some(ToString(u))
    ensures !e.EmptyExpression?
  {
    StaticMethodCallExpression(UriType, "create", [ConstantExpression(StringValue(ToString(u)))])
  }

  /**
    Handles a declaration: a multiple-assignment declaration is rejected first,
    then one that already assigns a value, then a source without a URI;
    otherwise the right-hand side is set to the URI expression.
  */
  function SetScriptUriOnDeclaration(de: AnnotatedNode, node: AnnotationNode, source: SourceUnit, env: Environment): (r: VisitResult)
    requires de.Declaration?
    ensures r.Visited?
    ensures de.multipleAssignment ==> Reported(de, source.errors, r, MultipleAssignmentMessage)
    ensures !de.multipleAssignment && Initializer(de).Some?
      ==> Reported(de, source.errors, r, VariableAssignmentMessage)
    ensures !de.multipleAssignment && Initializer(de).None? && source.uri.None?
      ==> Reported(de, source.errors, r, NoScriptUriMessage)
    ensures !de.multipleAssignment && Initializer(de).None? && source.uri.Some?
      ==> Rewritten(de, source.errors, r, GetSourceUri(node, source.uri, env).value)
  {
    if de.multipleAssignment then
      Visited(de, AddError(MultipleAssignmentMessage, de, source.errors))
    else if !de.rightExpression.EmptyExpression? then
      Visited(de, AddError(VariableAssignmentMessage, de, source.errors))
    else
      match GetSourceUri(node, source.uri, env)
      case None => Visited(de, AddError(NoScriptUriMessage, de, source.errors))
      case Some(u) => Visited(SetInitializer(de, GetExpression(u)), source.errors)
  }

  /**
    Handles a field: one that already has an initial value is rejected, then a
    source without a URI; otherwise the initial value is set to the URI
    expression. Fields have no multiple-assignment check.
  */
  function SetScriptUriOnField(field: AnnotatedNode, node: AnnotationNode, source: SourceUnit, env: Environment): (r: VisitResult)
    requires field.Field?
    ensures r.Visited?
    ensures field.initialExpression.Some? ==> Reported(field, source.errors, r, VariableAssignmentMessage)
    ensures field.initialExpression.None? && source.uri.None?
      ==> Reported(field, source.errors, r, NoClassUriMessage)
    ensures field.initialExpression.None? && source.uri.Some?
      ==> Rewritten(field, source.errors, r, GetSourceUri(node, source.uri, env).value)
  {
    if field.initialExpression.Some? then
      Visited(field, AddError(VariableAssignmentMessage, field, source.errors))
    else
      match GetSourceUri(node, source.uri, env)
      case None => Visited(field, AddError(NoClassUriMessage, field, source.errors))
      case Some(u) => Visited(SetInitializer(field, GetExpression(u)), source.errors)
  }

  /**
    The entry point. A site not shaped [annotation, annotated node] is an
    internal error; an annotation of another type is ignored; a declaration
    or field is handed to its handler; any other annotated node is reported.
    Whatever happens, the node is either rewritten or reported, never both,
    and at most one diagnostic is added.
  */
  function Visit(nodes: seq<AstNode>, source: SourceUnit, env: Environment): (r: VisitResult)
    ensures r.InternalError? <==> !IsAnnotationSite(nodes)
    ensures IsAnnotationSite(nodes) && nodes[0].annotation.classNode != ScriptUriType
      ==> r == Visited(nodes[1].node, source.errors)
    ensures IsAnnotationSite(nodes) && nodes[0].annotation.classNode == ScriptUriType
        && nodes[1].node.OtherAnnotated?
      ==> Reported(nodes[1].node, source.errors, r, WrongTargetMessage)
    ensures IsAnnotationSite(nodes) && nodes[0].annotation.classNode == ScriptUriType
        && nodes[1].node.Declaration?
      ==> r == SetScriptUriOnDeclaration(nodes[1].node, nodes[0].annotation, source, env)
    ensures IsAnnotationSite(nodes) && nodes[0].annotation.classNode == ScriptUriType
        && nodes[1].node.Field?
      ==> r == SetScriptUriOnField(nodes[1].node, nodes[0].annotation, source, env)
    ensures r.Visited? ==> r.target == nodes[1].node || r.errors == source.errors
    ensures r.Visited? ==> |source.errors| <= |r.errors| <= |source.errors| + 1
                           && r.errors[..|source.errors|] == source.errors
    ensures r.Visited? && r.target != nodes[1].node
      ==> && nodes[0].annotation.classNode == ScriptUriType
          && Rewritten(nodes[1].node, source.errors, r,
                       GetSourceUri(nodes[0].annotation, source.uri, env).value)
  {
    if !IsAnnotationSite(nodes) then
      InternalError
    else
      var parent := nodes[1].node;
      var node := nodes[0].annotation;
      if node.classNode != ScriptUriType then
        Visited(parent, source.errors)
      else
        match parent
        case Declaration(_, _, _) => SetScriptUriOnDeclaration(parent, node, source, env)
        case Field(_, _) => SetScriptUriOnField(parent, node, source, env)
        case OtherAnnotated(_) => Visited(parent, AddError(WrongTargetMessage, parent, source.errors))
  }
}
