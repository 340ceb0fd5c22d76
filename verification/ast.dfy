/**
  The slice of the Groovy syntax tree the @ScriptURI pass looks at: the
  annotation occurrence, the node it decorates, and the expressions it reads
  or builds. Nodes are immutable; the tree setters of the compiler become
  functions returning the updated node.
*/
module Ast {
  import opened Wrappers

  /** Source coordinates of a node: first line and column, last line and column. */
  datatype Span = Span(line: int, column: int, lastLine: int, lastColumn: int)

  /** The value held by a constant expression. */
  datatype Value = BoolValue(b: bool) | StringValue(s: string) | IntValue(i: int)

  /** Expressions the pass inspects or synthesises; any other expression is `OtherExpression`. */
  datatype Expr =
    | EmptyExpression
    | ConstantExpression(value: Value)
    | StaticMethodCallExpression(ownerType: string, methodName: string, arguments: seq<Expr>)
    | OtherExpression(text: string)

  /** An annotation occurrence: the annotation type's name and its declared member values. */
  datatype AnnotationNode = AnnotationNode(classNode: string, members: map<string, Expr>)

  /**
    A node that can carry annotations. A declaration has a right-hand side that
    is `EmptyExpression` when nothing is assigned; a field's initial value
    expression may be absent.
  */
  datatype AnnotatedNode =
    | Declaration(multipleAssignment: bool, rightExpression: Expr, span: Span)
    | Field(initialExpression: Option<Expr>, span: Span)
    | OtherAnnotated(span: Span)

  /** An element of the node array handed to a transformation. */
  datatype AstNode =
    | Annotation(annotation: AnnotationNode)
    | Annotated(node: AnnotatedNode)
    | Plain(span: Span)

  /** The expression occupying a node's initializer slot, if any. */
  function Initializer(n: AnnotatedNode): Option<Expr>
  {
    match n
    case Declaration(_, rhs, _) => if rhs.EmptyExpression? then None else Some(rhs)
    case Field(init, _) => init
    case OtherAnnotated(_) => None
  }

  /** The node with its initializer slot emptied: everything about it except the slot. */
  function ClearInitializer(n: AnnotatedNode): AnnotatedNode
  {
    match n
    case Declaration(multi, _, span) => Declaration(multi, EmptyExpression, span)
    case Field(_, span) => Field(None, span)
    case OtherAnnotated(_) => n
  }

  /**
    Installs `e` in the initializer slot of a declaration (setRightExpression)
    or of a field (setInitialValueExpression); nothing else about the node changes.
  */
  function SetInitializer(n: AnnotatedNode, e: Expr): (r: AnnotatedNode)
    requires n.Declaration? || n.Field?
    ensures ClearInitializer(r) == ClearInitializer(n)
    ensures !e.EmptyExpression? ==> Initializer(r) == Some(e)
    ensures r.span == n.span
  {
    match n
    case Declaration(multi, _, span) => Declaration(multi, e, span)
    case Field(_, span) => Field(Some(e), span)
  }

  /**
    The slot and the rest of the node together determine the node, so "the
    rest is unchanged and the slot holds e" describes exactly one node.
  */
  lemma SlotAndRestDetermineNode(a: AnnotatedNode, b: AnnotatedNode)
    requires ClearInitializer(a) == ClearInitializer(b)
    requires Initializer(a) == Initializer(b)
    ensures a == b
  {
  }
}
