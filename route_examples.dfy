/**
 * Worked admission decisions on concrete token lists.
 */
module RouteExamples {
  import opened Wrappers
  import opened GoStrings
  import opened RouteWebhook

  /** An empty annotation value is one empty token, and a trailing comma adds an empty last token. */
  lemma EmptyAndTrailingTokens()
    ensures Split("", Comma) == [""]
    ensures Split("10.0.0.1,", Comma) == ["10.0.0.1", ""]
  {
    assert Join(["10.0.0.1", ""], Comma) == "10.0.0.1,";
    SplitJoin(["10.0.0.1", ""], Comma);
  }

  /**
   * Against an allowed list, a listed token is admitted and an unlisted one is
   * denied by name. The allow check runs first: had the forbidden check run
   * first, "10.0.0.1" would have been named.
   */
  lemma AllowedListAdmitsOnlyListedTokens()
    ensures Evaluate(NamespacePolicy(Some(["10.0.0.1"]), None, None), ["10.0.0.1"]) == Allowed
    ensures Evaluate(NamespacePolicy(Some(["10.0.0.1"]), Some(["10.0.0.1"]), None), ["10.0.0.1", "10.0.0.2"])
      == Denied(NotAuthorized, "10.0.0.2")
  {
  }

  /** Of two forbidden route tokens, the first in route order is named. */
  lemma ForbiddenNamesFirstRouteToken()
    ensures Evaluate(NamespacePolicy(None, Some(["10.0.0.1", "10.0.0.3"]), None), ["10.0.0.3", "10.0.0.1"])
      == Denied(NotAuthorized, "10.0.0.3")
  {
  }

  /** Of two missing required tokens, the first in required-list order is named. */
  lemma RequiredNamesFirstMissingToken()
    ensures Evaluate(NamespacePolicy(None, None, Some(["10.0.0.1", "10.0.0.2", "10.0.0.3"])), ["10.0.0.1"])
      == Denied(MustInclude, "10.0.0.2")
  {
  }
}
