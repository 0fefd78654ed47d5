# Route IP-whitelist admission webhook, modelled in Dafny

This project models the validating admission webhook for OpenShift Routes in
`webhooks/route.go`. A namespace may carry three annotations, each a
comma-separated list of IP/CIDR tokens:

- `openshift.astrokube.io/route-allowed-ip-whitelist`
- `openshift.astrokube.io/route-forbidden-ip-whitelist`
- `openshift.astrokube.io/route-required-ip-whitelist`

A Route carries its own list in `haproxy.router.openshift.io/ip_whitelist`.
The webhook runs up to three checks in a fixed order and stops at the first
violation:

1. The allow check: every route token must be in the allowed list.
2. The forbidden check: no route token may be in the forbidden list.
3. The required check: every required token must be on the route.

A check runs only when its namespace annotation exists. Tokens are compared
as literal strings. There is no CIDR arithmetic.

Files:

- `wrappers.dfy`: `Option` stands for a Go slice that may be nil. `Result` stands for a Go `(value, err)` pair.
- `go_strings.dfy`: Go's `strings.Split` and `strings.Join` for a one-character separator, with their round-trip lemmas.
- `route.dfy`: the annotation parsing, the first-violation scans, `Evaluate` (the three checks), `Handle` (the error precedence around them) and the decision's properties.
- `route_examples.dfy`: concrete decisions on small token lists.

Strings are `seq<char>`. Go splits on bytes, but `,` is a single ASCII byte.
So splitting the UTF-8 bytes on `,` gives the same pieces as splitting the
characters.

The namespace lookup (`Client.Get`) and the request decoder (`decoder.Decode`)
are inputs of `Handle`. Each is a `Result` holding an annotation map or an
error.

A verdict is one of three values:

- `Allowed`.
- `Denied(kind, token)`. The kind is `NotAuthorized` for the two "You are not authorized to use ..." messages, and `MustInclude` for the "You have to include ..." message.
- `Errored(code, cause)`.

An empty required annotation is not vacuous. `Split("", ",")` is `[""]`, so a
Route without a whitelist annotation is denied, naming `""`
(`EmptyRequiredWithoutRouteAnnotation`). Likewise, a present but empty
allowed annotation becomes `[""]`. It admits an empty route list, because
nothing is scanned.

`Count` and `Join` in `go_strings.dfy` are specification helpers: route.go
calls neither `strings.Count` nor `strings.Join`. They state what `Split`
computes and how to undo it.

## Model

| member | source | states |
|---|---|---|
| GoStrings.Split | webhooks/route.go:97 | `strings.Split(raw, ",")` never returns an empty list: it has exactly one more piece than `raw` has commas, and no piece contains a comma |
| GoStrings.JoinSplit | webhooks/route.go:97 | joining the pieces of a split with `,` gives back the raw annotation value, so splitting loses nothing |
| GoStrings.SplitJoin | webhooks/route.go:97 | splitting the join of a non-empty list of comma-free tokens gives back that list, so Split and Join are inverses |
| RouteWebhook.NamespaceWhitelist | webhooks/route.go:95-117 | a namespace whitelist is absent (nil) exactly when its key is missing; when the key is present it holds the comma-separated tokens of the value (one more than the commas, comma-free, joining back to the value) |
| RouteWebhook.GetRequiredIPWhitelist | webhooks/route.go:95-101 | absent exactly when the required annotation is missing, otherwise a non-empty token list parsed from it |
| RouteWebhook.GetAllowedIPWhitelist | webhooks/route.go:103-109 | absent exactly when the allowed annotation is missing, otherwise a non-empty token list parsed from it |
| RouteWebhook.GetForbiddenIPWhitelist | webhooks/route.go:111-117 | absent exactly when the forbidden annotation is missing, otherwise a non-empty token list parsed from it |
| RouteWebhook.GetRouteIPWhitelist | webhooks/route.go:119-132 | fails exactly when decoding fails, with the decoder's error; a missing route annotation gives the empty list, never absent; a present one gives the tokens parsed from it |
| RouteWebhook.FirstMissing | webhooks/route.go:66-70 | the scan finds nothing exactly when every token of the first list is in the second; otherwise it returns the first position whose token is missing |
| RouteWebhook.FirstPresent | webhooks/route.go:57-61 | the scan finds nothing exactly when no token of the first list is in the second; otherwise it returns the first position whose token is present |
| RouteWebhook.Evaluate | webhooks/route.go:46-73 | never an error; `Allowed` exactly when each present policy holds (all route tokens allowed, no route token forbidden, all required tokens on the route); a "have to include" denial names a required token missing from the route; a "not authorized" denial names a route token |
| RouteWebhook.Handle | webhooks/route.go:26-44 | a namespace fetch failure gives error 500 whatever the request; otherwise a decode failure gives error 400; it errs only in those two cases, and otherwise gives the policy verdict for the namespace's and the route's lists |
| RouteWebhook.PolicyOf | webhooks/route.go:35-37 | each of the three namespace lists is absent exactly when its annotation is missing, and otherwise holds the tokens parsed from that annotation |
| RouteWebhook.NoPoliciesAllowAll | webhooks/route.go:46-73 | with none of the three annotations, every route token list is allowed, the empty one included |
| RouteWebhook.AllowViolationDenies | webhooks/route.go:47-53 | when the allowed list is present, the first route token outside it, in route order, is denied as "not authorized", whatever the forbidden and required lists say |
| RouteWebhook.ForbidViolationDenies | webhooks/route.go:56-62 | once the allow check passes, the first route token in a present forbidden list is denied as "not authorized", whatever the required list says |
| RouteWebhook.RequireViolationDenies | webhooks/route.go:65-71 | once the first two checks pass, the first required token, in required-list order, missing from the route is denied as "have to include" |
| RouteWebhook.DeniedHasCause | webhooks/route.go:46-73 | every denial comes from one check at its first violating position, with all earlier checks passing |
| RouteWebhook.MissingRouteAnnotation | webhooks/route.go:127-131 | without a route annotation, the request is allowed exactly when the namespace has no required annotation; with one it is denied, naming the first required token |
| RouteWebhook.EmptyRequiredWithoutRouteAnnotation | webhooks/route.go:96-97 | an empty required annotation parses to one empty token, so a Route without the annotation is denied, naming the empty token |
| RouteExamples.EmptyAndTrailingTokens | webhooks/route.go:97 | an empty annotation is the single empty token, and a trailing comma adds an empty last token |
| RouteExamples.AllowedListAdmitsOnlyListedTokens | webhooks/route.go:47-53 | a listed token is admitted; when the allow and forbidden checks would name different tokens, the allow check's token is named, so it runs first |
| RouteExamples.ForbiddenNamesFirstRouteToken | webhooks/route.go:57-61 | of two forbidden route tokens, the first in route order is named |
| RouteExamples.RequiredNamesFirstMissingToken | webhooks/route.go:66-70 | of two missing required tokens, the first in required-list order is named |

## Left out

- `InjectDecoder` (webhooks/route.go:76-79) stores the framework's decoder. It is wiring with no decision logic.
- `GetNamespace` and `Client.Get` (webhooks/route.go:81-93) are a network lookup. Their outcome is the `fetched` input of `Handle`.
- `decoder.Decode` (webhooks/route.go:121) is a library call. Its outcome is the `decoded` input of `GetRouteIPWhitelist` and `Handle`.
- Logging through `logr` has no effect on the decision and is not modelled.
- The `fmt.Sprintf` message text is reduced to the denial kind and the token. The `"Valid Route"` message of `Allowed` is dropped.
- The `admission.Response` and HTTP encoding are reduced to the `Verdict` datatype.
- `isStringInSlice` is defined outside route.go. The model assumes it is exact string membership (`in` on a `seq<string>`).
- Concurrency: each request is handled independently and shares no mutable state, so there is nothing to model.
