/**
  The part of java.net.URI the pass relies on. A URI is represented by the
  string it was built from, which is what `toString` gives back; whether it
  is absolute and how it resolves against another URI are left uninterpreted
  and supplied by the caller.
*/
module Uris {

  datatype Uri = Uri(spelling: string)

  /** URI.toString(): the string form of the URI. */
  function ToString(u: Uri): string
  {
    u.spelling
  }

  /**
    The uninterpreted operations of java.net.URI. `resolve(u, v)` stands for
    the call `u.resolve(v)`: the receiver comes first.
  */
  datatype UriSemantics = UriSemantics(isAbsolute: Uri -> bool, resolve: (Uri, Uri) -> Uri)

  /**
    Section 5.2 of RFC 2396, which java.net.URI.resolve follows: when the
    given reference is already absolute, resolving it against any base
    returns the reference itself. Used only as an explicit hypothesis.
  */
  ghost predicate AbsoluteReferenceWins(sem: UriSemantics)
  {
    forall base: Uri, reference: Uri :: sem.isAbsolute(reference) ==> sem.resolve(base, reference) == reference
  }
}
