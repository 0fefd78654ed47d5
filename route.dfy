/**
 * The validating admission webhook for OpenShift Routes (webhooks/route.go):
 * a namespace may declare an allowed, a forbidden and a required list of
 * IP/CIDR tokens; a Route's own IP whitelist annotation is checked against
 * them, and the first violation found denies the Route.
 */
module RouteWebhook {
  import opened Wrappers
  import opened GoStrings

  /** Object annotations, as on `ObjectMeta.Annotations`. */
  type Annotations = map<string, string>

  /** Annotation keys (webhooks/consts.go). */
  const AllowedIPWhitelistAnnotation: string := "openshift.astrokube.io/route-allowed-ip-whitelist"
  const ForbiddenIPWhitelistAnnotation: string := "openshift.astrokube.io/route-forbidden-ip-whitelist"
  const RequiredIPWhitelistAnnotation: string := "openshift.astrokube.io/route-required-ip-whitelist"
  const RouteIPWhitelistAnnotation: string := "haproxy.router.openshift.io/ip_whitelist"

  /** The HTTP status codes the handler answers with when a collaborator fails. */
  const StatusInternalServerError: nat := 500
  const StatusBadRequest: nat := 400

  /** The list separator inside every whitelist annotation. */
  const Comma: char := ','

  /** An error returned by a collaborator (the namespace lookup or the request decoder). */
  datatype Error = Error(message: string)

  /**
   * Which of the two denial messages is used: "You are not authorized to use
   * the following IP/CIDR ..." or "You have to include the following IP/CIDR ...".
   */
  datatype DenialKind = NotAuthorized | MustInclude

  /** The admission response: allowed, denied naming one token, or a request-level error. */
  datatype Verdict =
    | Allowed
    | Denied(kind: DenialKind, token: string)
    | Errored(code: nat, cause: Error)

  /** The three namespace-level lists; `None` means the annotation is absent and the check is skipped. */
  datatype NamespacePolicy = NamespacePolicy(
    allowed: Option<seq<string>>,
    forbidden: Option<seq<string>>,
    required: Option<seq<string>>)

  // ---------------------------------------------------------------------------
  // Annotation parsing
  // ---------------------------------------------------------------------------

  /** What a raw whitelist annotation value is parsed into: its comma-separated tokens. */
  predicate ParsedFrom(tokens: seq<string>, raw: string)
  {
    && |tokens| == Count(raw, Comma) + 1
    && SeparatorFree(tokens, Comma)
    && Join(tokens, Comma) == raw
  }

  /** A namespace whitelist: absent (nil) without the key, the split value with it. */
  function NamespaceWhitelist(annotations: Annotations, key: string): (r: Option<seq<string>>)
    ensures r.None? <==> key !in annotations
    ensures key in annotations ==> ParsedFrom(r.value, annotations[key])
  {
    if key in annotations then
      JoinSplit(annotations[key], Comma);
      Some(Split(annotations[key], Comma))
    else None
  }

  function GetRequiredIPWhitelist(namespace: Annotations): (r: Option<seq<string>>)
    ensures r.None? <==> RequiredIPWhitelistAnnotation !in namespace
    ensures r.Some? ==> |r.value| >= 1 && ParsedFrom(r.value, namespace[RequiredIPWhitelistAnnotation])
  {
    NamespaceWhitelist(namespace, RequiredIPWhitelistAnnotation)
  }

  function GetAllowedIPWhitelist(namespace: Annotations): (r: Option<seq<string>>)
    ensures r.None? <==> AllowedIPWhitelistAnnotation !in namespace
    ensures r.Some? ==> |r.value| >= 1 && ParsedFrom(r.value, namespace[AllowedIPWhitelistAnnotation])
  {
    NamespaceWhitelist(namespace, AllowedIPWhitelistAnnotation)
  }

  function GetForbiddenIPWhitelist(namespace: Annotations): (r: Option<seq<string>>)
    ensures r.None? <==> ForbiddenIPWhitelistAnnotation !in namespace
    ensures r.Some? ==> |r.value| >= 1 && ParsedFrom(r.value, namespace[ForbiddenIPWhitelistAnnotation])
  {
    NamespaceWhitelist(namespace, ForbiddenIPWhitelistAnnotation)
  }

  /**
   * The Route's own whitelist: the decoder's error if decoding failed, the empty
   * list (never absent) without the annotation, the split value with it.
   */
  function GetRouteIPWhitelist(decoded: Result<Annotations, Error>): (r: Result<seq<string>, Error>)
    ensures r.Failure? <==> decoded.Failure?
    ensures decoded.Failure? ==> r.error == decoded.error
    ensures decoded.Success? && RouteIPWhitelistAnnotation !in decoded.value ==> r == Success([])
    ensures decoded.Success? && RouteIPWhitelistAnnotation in decoded.value ==>
      ParsedFrom(r.value, decoded.value[RouteIPWhitelistAnnotation])
  {
    match decoded
    case Failure(e) => Failure(e)
    case Success(route) =>
      if RouteIPWhitelistAnnotation in route then
        var raw := route[RouteIPWhitelistAnnotation];
        JoinSplit(raw, Comma);
        Success(Split(raw, Comma))
      else Success([])
  }

  /** The policy a namespace's annotations declare. */
  function PolicyOf(namespace: Annotations): (p: NamespacePolicy)
    ensures p.allowed.None? <==> AllowedIPWhitelistAnnotation !in namespace
    ensures p.forbidden.None? <==> ForbiddenIPWhitelistAnnotation !in namespace
    ensures p.required.None? <==> RequiredIPWhitelistAnnotation !in namespace
    ensures p.allowed.Some? ==> ParsedFrom(p.allowed.value, namespace[AllowedIPWhitelistAnnotation])
    ensures p.forbidden.Some? ==> ParsedFrom(p.forbidden.value, namespace[ForbiddenIPWhitelistAnnotation])
    ensures p.required.Some? ==> ParsedFrom(p.required.value, namespace[RequiredIPWhitelistAnnotation])
  {
    NamespacePolicy(
      GetAllowedIPWhitelist(namespace),
      GetForbiddenIPWhitelist(namespace),
      GetRequiredIPWhitelist(namespace))
  }

  // ---------------------------------------------------------------------------
  // First-violation scans
  // ---------------------------------------------------------------------------

  /** `i` is the first position of `xs` whose token is not in `ys`. */
  predicate FirstMissingAt(xs: seq<string>, ys: seq<string>, i: nat)
  {
    && i < |xs|
    && xs[i] !in ys
    && forall j :: 0 <= j < i ==> xs[j] in ys
  }

  /** `i` is the first position of `xs` whose token is in `ys`. */
  predicate FirstPresentAt(xs: seq<string>, ys: seq<string>, i: nat)
  {
    && i < |xs|
    && xs[i] in ys
    && forall j :: 0 <= j < i ==> xs[j] !in ys
  }

  /** Scans `xs` in order for the first token missing from `ys` (the `!isStringInSlice` loops). */
  function FirstMissing(xs: seq<string>, ys: seq<string>): (r: Option<nat>)
    ensures r.None? <==> forall j :: 0 <= j < |xs| ==> xs[j] in ys
    ensures r.Some? ==> FirstMissingAt(xs, ys, r.value)
  {
    if |xs| == 0 then None
    else if xs[0] !in ys then Some(0)
    else match FirstMissing(xs[1..], ys)
      case None => None
      case Some(k) => Some(k + 1)
  }

  /** Scans `xs` in order for the first token present in `ys` (the `isStringInSlice` loop). */
  function FirstPresent(xs: seq<string>, ys: seq<string>): (r: Option<nat>)
    ensures r.None? <==> forall j :: 0 <= j < |xs| ==> xs[j] !in ys
    ensures r.Some? ==> FirstPresentAt(xs, ys, r.value)
  {
    if |xs| == 0 then None
    else if xs[0] in ys then Some(0)
    else match FirstPresent(xs[1..], ys)
      case None => None
      case Some(k) => Some(k + 1)
  }

  // ---------------------------------------------------------------------------
  // The three checks
  // ---------------------------------------------------------------------------

  /** The allow check holds: it is skipped, or every route token is allowed. */
  predicate AllowHolds(policy: NamespacePolicy, route: seq<string>)
  {
    policy.allowed.None? || forall t :: t in route ==> t in policy.allowed.value
  }

  /** The forbidden check holds: it is skipped, or no route token is forbidden. */
  predicate ForbidHolds(policy: NamespacePolicy, route: seq<string>)
  {
    policy.forbidden.None? || forall t :: t in route ==> t !in policy.forbidden.value
  }

  /** The required check holds: it is skipped, or every required token is on the route. */
  predicate RequireHolds(policy: NamespacePolicy, route: seq<string>)
  {
    policy.required.None? || forall t :: t in policy.required.value ==> t in route
  }

  /**
   * The policy decision: the allow, forbidden and required checks in that
   * order; the first violation denies, naming its token.
   */
  function Evaluate(policy: NamespacePolicy, route: seq<string>): (r: Verdict)
    ensures !r.Errored?
    ensures r.Allowed? <==>
      AllowHolds(policy, route) && ForbidHolds(policy, route) && RequireHolds(policy, route)
    ensures r.Denied? && r.kind == MustInclude ==> policy.required.Some? && r.token !in route
    ensures r.Denied? && r.kind == NotAuthorized ==> r.token in route
  {
    var allowViolation := if policy.allowed.Some? then FirstMissing(route, policy.allowed.value) else None;
    if allowViolation.Some? then
      Denied(NotAuthorized, route[allowViolation.value])
    else
      var forbidViolation := if policy.forbidden.Some? then FirstPresent(route, policy.forbidden.value) else None;
      if forbidViolation.Some? then
        Denied(NotAuthorized, route[forbidViolation.value])
      else
        var requireViolation := if policy.required.Some? then FirstMissing(policy.required.value, route) else None;
        if requireViolation.Some? then
          Denied(MustInclude, policy.required.value[requireViolation.value])
        else
          Allowed
  }

  /**
   * `Handle`: a namespace lookup failure answers 500, then a decode failure
   * answers 400, and only then are the policies evaluated.
   */
  function Handle(fetched: Result<Annotations, Error>, decoded: Result<Annotations, Error>): (r: Verdict)
    ensures fetched.Failure? ==> r == Errored(StatusInternalServerError, fetched.error)
    ensures fetched.Success? && decoded.Failure? ==> r == Errored(StatusBadRequest, decoded.error)
    ensures r.Errored? <==> fetched.Failure? || decoded.Failure?
    ensures fetched.Success? && decoded.Success? ==>
      r == Evaluate(PolicyOf(fetched.value), GetRouteIPWhitelist(decoded).value)
  {
    match fetched
    case Failure(e) => Errored(StatusInternalServerError, e)
    case Success(namespace) =>
      var policy := PolicyOf(namespace);
      match GetRouteIPWhitelist(decoded)
      case Failure(e) => Errored(StatusBadRequest, e)
      case Success(route) => Evaluate(policy, route)
  }

  // ---------------------------------------------------------------------------
  // Properties of the decision
  // ---------------------------------------------------------------------------

  /** With no policy annotation at all, every route token list is allowed, the empty one included. */
  lemma NoPoliciesAllowAll(route: seq<string>)
    ensures Evaluate(NamespacePolicy(None, None, None), route) == Allowed
  {
  }

  /**
   * A route token outside a present allowed list denies with "not authorized",
   * naming the first such token in route order, whatever the other two lists say.
   */
  lemma AllowViolationDenies(policy: NamespacePolicy, route: seq<string>, i: nat)
    requires policy.allowed.Some?
    requires FirstMissingAt(route, policy.allowed.value, i)
    ensures Evaluate(policy, route) == Denied(NotAuthorized, route[i])
  {
  }

  /**
   * Once the allow check passes, a route token in a present forbidden list
   * denies with the same "not authorized" reason, naming the first such token
   * in route order, whatever the required list says.
   */
  lemma ForbidViolationDenies(policy: NamespacePolicy, route: seq<string>, i: nat)
    requires AllowHolds(policy, route)
    requires policy.forbidden.Some?
    requires FirstPresentAt(route, policy.forbidden.value, i)
    ensures Evaluate(policy, route) == Denied(NotAuthorized, route[i])
  {
  }

  /**
   * Once the allow and forbidden checks pass, a required token missing from the
   * route denies with "have to include", naming the first such token in
   * required-list order.
   */
  lemma RequireViolationDenies(policy: NamespacePolicy, route: seq<string>, i: nat)
    requires AllowHolds(policy, route) && ForbidHolds(policy, route)
    requires policy.required.Some?
    requires FirstMissingAt(policy.required.value, route, i)
    ensures Evaluate(policy, route) == Denied(MustInclude, policy.required.value[i])
  {
  }

  /**
   * Conversely, every denial comes from one of the three checks, at its first
   * violating position, with every earlier check passing.
   */
  lemma DeniedHasCause(policy: NamespacePolicy, route: seq<string>)
    requires Evaluate(policy, route).Denied?
    ensures var v := Evaluate(policy, route);
      || (exists i: nat :: policy.allowed.Some? && FirstMissingAt(route, policy.allowed.value, i)
            && v == Denied(NotAuthorized, route[i]))
      || (exists i: nat :: AllowHolds(policy, route) && policy.forbidden.Some?
            && FirstPresentAt(route, policy.forbidden.value, i) && v == Denied(NotAuthorized, route[i]))
      || (exists i: nat :: AllowHolds(policy, route) && ForbidHolds(policy, route) && policy.required.Some?
            && FirstMissingAt(policy.required.value, route, i) && v == Denied(MustInclude, policy.required.value[i]))
  {
  }

  /**
   * Without a route annotation the allow and forbidden checks pass vacuously,
   * so the verdict is Allowed exactly when the namespace has no required
   * annotation; a present one, even an empty one, denies, naming its first token.
   */
  lemma MissingRouteAnnotation(namespace: Annotations, route: Annotations)
    requires RouteIPWhitelistAnnotation !in route
    ensures RequiredIPWhitelistAnnotation !in namespace ==>
      Handle(Success(namespace), Success(route)) == Allowed
    ensures RequiredIPWhitelistAnnotation in namespace ==>
      Handle(Success(namespace), Success(route))
        == Denied(MustInclude, Split(namespace[RequiredIPWhitelistAnnotation], Comma)[0])
  {
  }

  /** In particular an empty required annotation with no route annotation denies, naming the empty token. */
  lemma EmptyRequiredWithoutRouteAnnotation(namespace: Annotations, route: Annotations)
    requires RouteIPWhitelistAnnotation !in route
    requires RequiredIPWhitelistAnnotation in namespace && namespace[RequiredIPWhitelistAnnotation] == ""
    ensures Handle(Success(namespace), Success(route)) == Denied(MustInclude, "")
  {
  }
}
