/**
  Non-fatal compiler diagnostics: the error collector is an append-only list
  and reporting an error never stops the pass.
*/
module Diagnostics {
  import opened Ast

  /** A syntax error message with the span of the node it is anchored to. */
  datatype Diagnostic = Diagnostic(message: string, span: Span)

  /** `after` is `before` with exactly one more diagnostic, anchored at `span`. */
  ghost predicate AppendedOne(before: seq<Diagnostic>, after: seq<Diagnostic>, span: Span)
  {
    && |after| == |before| + 1
    && after[..|before|] == before
    && after[|before|].span == span
  }

  /** Reports `msg` against `node` and continues: the text gains a trailing newline. */
  function AddError(msg: string, node: AnnotatedNode, errors: seq<Diagnostic>): (r: seq<Diagnostic>)
    ensures AppendedOne(errors, r, node.span)
    ensures r[|errors|].message == msg + "\n"
  {
    errors + [Diagnostic(msg + "\n", node.span)]
  }
}
