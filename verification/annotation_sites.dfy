/**
  The pass applied to every @ScriptURI site of one source unit in turn, all
  sharing the unit's error collector. Reporting an error continues the
  compilation, so a rejected site never hides the outcome of a later one;
  only a malformed site (an internal error) stops the run.
*/
module AnnotationSites {
  import opened Wrappers
  import opened Ast
  import opened Uris
  import opened Diagnostics
  import opened ScriptUriTransformation
  import opened ScriptUriProperties

  /** How many of `sites` are rejected and so report a diagnostic. */
  function CountRejected(sites: seq<seq<AstNode>>, uri: Option<Uri>): (n: nat)
    ensures n <= |sites|
    ensures n == |sites| <==> forall i :: 0 <= i < |sites| ==> Rejects(sites[i], uri)
  {
    if sites == [] then 0
    else
      var init := sites[..|sites| - 1];
      assert forall i :: 0 <= i < |init| ==> init[i] == sites[i];
      CountRejected(init, uri) + (if Rejects(sites[|sites| - 1], uri) then 1 else 0)
  }

  /**
    The collector is append-only: what a site does to the node and what it
    adds to the collector do not depend on what was collected before it.
  */
  lemma CollectorAppendOnly(site: seq<AstNode>, uri: Option<Uri>, errors: seq<Diagnostic>, env: Environment)
    requires IsAnnotationSite(site)
    ensures Visit(site, SourceUnit(uri, errors), env).Visited?
    ensures Visit(site, SourceUnit(uri, errors), env).target == Visit(site, SourceUnit(uri, []), env).target
    ensures Visit(site, SourceUnit(uri, errors), env).errors == errors + Visit(site, SourceUnit(uri, []), env).errors
  {
  }

  /** Extending the list of sites by one adds that site's own contribution to the count. */
  lemma CountRejectedSnoc(sites: seq<seq<AstNode>>, i: nat, uri: Option<Uri>)
    requires i < |sites|
    ensures CountRejected(sites[..i + 1], uri)
         == CountRejected(sites[..i], uri) + (if Rejects(sites[i], uri) then 1 else 0)
  {
    assert sites[..i + 1][..i] == sites[..i];
  }

  /**
    One step of the run: a malformed site is an internal error; a well-shaped
    one ends as the decision table says and adds one diagnostic exactly when
    it is rejected, keeping what was collected before.
  */
  method VisitStep(site: seq<AstNode>, uri: Option<Uri>, errors: seq<Diagnostic>, env: Environment)
    returns (r: VisitResult)
    ensures r.InternalError? <==> !IsAnnotationSite(site)
    ensures r.Visited? ==> r.target == ExpectedTarget(site, uri, env)
    ensures r.Visited? ==> |r.errors| == |errors| + (if Rejects(site, uri) then 1 else 0)
    ensures r.Visited? ==> errors <= r.errors
  {
    r := Visit(site, SourceUnit(uri, errors), env);
    if r.Visited? {
      VisitFollowsDecisionTable(site, SourceUnit(uri, errors), env);
    }
  }

  /**
    Visits the sites in order. The run aborts exactly when some site is
    malformed; otherwise every node ends as the decision table says for its
    own site, whatever the other sites did, the collector gains one
    diagnostic per rejected site, and diagnostics collected before the run
    are kept in every case.
    Each site carries its own annotated node: sites are taken to annotate
    distinct nodes, so one site's rewrite is not seen by another.
  */
  method VisitAll(sites: seq<seq<AstNode>>, uri: Option<Uri>, env: Environment, errors0: seq<Diagnostic>)
    returns (aborted: bool, targets: seq<AnnotatedNode>, errors: seq<Diagnostic>)
    ensures aborted <==> exists i :: 0 <= i < |sites| && !IsAnnotationSite(sites[i])
    ensures !aborted ==> |targets| == |sites|
    ensures !aborted ==> forall i :: 0 <= i < |sites| ==> targets[i] == ExpectedTarget(sites[i], uri, env)
    ensures !aborted ==> |errors| == |errors0| + CountRejected(sites, uri)
    ensures errors0 <= errors
  {
    aborted, targets, errors := false, [], errors0;
    var i := 0;
    while i < |sites|
      invariant 0 <= i <= |sites|
      invariant forall j :: 0 <= j < i ==> IsAnnotationSite(sites[j])
      invariant |targets| == i
      invariant forall j :: 0 <= j < i ==> targets[j] == ExpectedTarget(sites[j], uri, env)
      invariant |errors| == |errors0| + CountRejected(sites[..i], uri)
      invariant errors0 <= errors
    {
      var r := VisitStep(sites[i], uri, errors, env);
      if r.InternalError? {
        aborted := true;
        return;
      }
      CountRejectedSnoc(sites, i, uri);
      targets := targets + [r.target];
      errors := r.errors;
      i := i + 1;
    }
    assert sites[..|sites|] == sites;
  }
}
