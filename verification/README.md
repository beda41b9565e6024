# Verified model of BeanStream's request path

BeanStream is an HTTP client library that refuses to be sent to internal
addresses: it validates URLs, pins DNS answers, walks redirects itself, limits
rates, caches responses and pins certificates. This project models that
behaviour in Dafny and proves what the library is for, over every input, every
run and every interleaving. `dafny verify dfyconfig.toml` checks all of it.

## The modules

- **RequestHandler** is the request path: validation, pinning, the attempt
  loop, the redirect walk, the final answer. Everything outside the crate (the
  progress tracker, the rate limiter, the cache, the resolver, the transport,
  the resolution of a `Location`) is an oracle, a function of the whole trace
  of the run so far, so it may change its mind at any time. The methods follow
  the source's loops and are proved equal to recursive functions that return
  the result together with the trace.
- **RequestSafety** reads the exchanges off a trace and shows that they are
  attempts at one call followed by a chain of hops; everything about headers,
  bodies, methods, origins, schemes, scope and counts follows from that. The
  last theorems are about `send`: interceptors may turn the request into any
  other and the abort signal may cut the run after any event.
- **RequestTrace** relates each event to the events before it: which lookup a
  pin came from, when the cache may be read and what is written to it, and
  which answer the caller gets.
- **RequestProtocol** is the order of a run: what it opens with, which traffic
  follows, and for what reason it ends with which result. **RequestRules** has
  the rules that follow for every send: a refusal ends it, the tracker and the
  limiter come first, which outcomes are tried again, where credentials and
  bodies may go, what is stored.
- **Builder** and **BuiltRequests** give the textual deny lists their meaning
  as sets of label lists, compare them with the numeric block list and the
  reserved names, and follow a request from the builder to the wire.
  **Alignment** has the exact condition under which connections are safe when
  interceptors may change a request's fields one by one.
- **RedirectPolicy**: host normalisation, wildcard patterns, the redirect
  policy, the scope validator. **UrlValidation**, **Addresses**,
  **PercentDecoding**, **Utf8**: URL checks, address classification, the
  bounded multi-round decoder with the standard library's lossy UTF-8
  conversion in full. **HeaderValidation**, **Retry**: header and retry rules.
- **CertPinning** is the DER walk to a certificate's SubjectPublicKeyInfo,
  with the matching encoder (section 8.1.3 of ITU-T X.690, section 4.1 of
  RFC 5280).
- **RateLimit** is the limiter as a protocol of atomic steps. Its class updates
  the shared fields one step at a time, and every step keeps the invariant the
  theorems rest on; these are about all sequences of steps, including
  cancellation at every await.
- **CacheLifetimes** reads from a response how long and under which tag it may
  be stored. **Cache** has the cache's calls as methods of a class, against an
  ideal map without size limit or clean-up; **CacheInterleaving** splits the
  calls into the atomic steps they make on the concurrent map. **CacheLosses**
  says when an entry of the ideal map is missing, **CacheLimit** when the size
  limit holds.
- **PlatformConfig** is the XML escaping. **Text**, **Bytes** and **Wrappers**
  hold what Rust's standard library provides.

## Where the code and its documentation differ

The model follows the code.

- `max_redirects` is documented as the maximum number of hops; since the start
  URL counts as visited, at most `max_redirects - 1` hops are made
  (`RequestSafety.RunIsShort`).
- A `*.` pattern is documented to stand for one label; it matches any number of
  labels, and none (`RedirectPolicy.MatchingIsByLabels`).
- A line break anywhere in a header value is documented to be refused; at either
  end it is white space and trimmed away (`HeaderValidation.ValidHeaderMeans`).
- `allow_any_redirect` is documented to admit unlisted hosts; it does so only
  when `track_all_redirects` is off as well (`RequestSafety.PlanHopSpec`).
- `no-store` and `no-cache` are documented to prevent caching entirely; they
  keep the new response out, but an earlier entry under the same key stays
  (`Cache.InMemoryCache.Insert`).
- The check on raw URL text is documented to leave the query alone; without a
  path it scans the query from its first slash on
  (`UrlValidation.SlashesInQueryAreRefused`). It is documented to see traversal
  before the parser normalises it away; where backslashes set off the path it
  does not (`UrlValidation.BackslashTraversalIsMissed`).
- Every connection is documented to go to validated addresses of its host; this
  needs `parsed_url` to be right about `url`, and an interceptor can change one
  without the other (`Alignment.SafeExactlyWhenAligned`).
- A request is documented to permit its own host; it does not if that is an
  IPv6 address that the URL and the standard library print differently
  (`BuiltRequests.BuiltRequestReachesItself`).
- A bare list entry is documented to match only that host exactly; it is
  normalised when stored and again when compared. Where the two passes differ,
  as for `a].`, the stored entry matches more than the written one
  (`RedirectPolicy.StoredPatternMatchesAlike`).
- `max_size` is documented as an upper bound on stored entries; inserts side by
  side exceed it, and no number of inserts in flight bounds by how much
  (`CacheLimit.SharedVictimGrowsMap`).
- The walk returns an SPKI element of any tag: the rejection of other tags than
  0x30 is compiled for tests only. Certificates without a version whose first
  field carries tag 0xA0 are misread, exactly as `CertPinning.WalkIsExact`
  and `CertPinning.WalkIsRight` say.

## Assumptions

- A response comes from the URL its request was sent to: the transport follows
  no redirects. A URL is the value its parser gives; printing it and parsing
  it again changes nothing, and the path of an http URL is never empty.
- The syntax checks of the HTTP library on header names and values are
  parameters. A sleep does not end early. Clocks do not run backwards.

## Model

| member | source | states |
|---|---|---|
| RequestHandler.ResolvePin | src/request_handler.rs:510-547 | a literal address gets no pin; a name gets all its addresses, unless one of them is blocked and private networks were not opted into, or there is none |
| RequestHandler.FollowChain | src/request_handler.rs:888-953 | the loop computes the recursive walk: same result, same lookups and exchanges in the same order, from any trace |
| RequestHandler.SendWithRetries | src/request_handler.rs:769-830 | the attempt loop computes the recursive attempts |
| RequestHandler.AttemptsKeepUrl | src/request_handler.rs:778-830 | the answer that ends the attempts is for the request's own URL |
| RequestHandler.FetchAnswer | src/request_handler.rs:766-839 | one pin, then the attempts, then the walk if the policy asks for it |
| RequestHandler.Conclude | src/request_handler.rs:841-880 | error statuses become errors, a 304 may be served from the cache, a success is stored redacted, the tracker has the last word |
| RequestHandler.ExecuteInner | src/request_handler.rs:726-880 | the whole of one execution: result and trace of events |
| RequestHandler.Send | src/request_handler.rs:1050-1075 | interceptors, abort at any event, execution, interceptors again, final redaction |
| RequestHandler.LocationIsFirst | src/request_handler.rs:684-694 | the redirect target is the value of the first `Location` header, whatever its case |
| RequestSafety.AttemptsAreLogged | src/request_handler.rs:769-830 | attempts repeat one identical call, at least once and at most max(1, max_attempts) times, stop at the first outcome that is not retryable, and return the last outcome |
| RequestSafety.FollowIsLogged | src/request_handler.rs:894-952 | each exchange of the walk is the hop that the answer before it and the URLs visited so far lead to |
| RequestSafety.ExecuteIsLogged | src/request_handler.rs:726-880 | nothing is exchanged unless validation passed; then the exchanges are attempts and a chain of hops from the last of them, no hops if redirects are not followed |
| RequestSafety.PlanHopSpec | src/request_handler.rs:630-681 | exactly when a redirect is followed: new URL, chain short enough, http or https, no downgrade, valid and safe URL, host undenied, allowed and in scope; and what the hop carries |
| RequestSafety.RefusedHops | src/request_handler.rs:616-648 | for which reason, in which order and with which error a redirect is not followed |
| RequestSafety.HopIsValidated | src/request_handler.rs:616-621 | the three checks on a hop together accept exactly those URLs |
| RequestSafety.HeadersAlongRun | src/request_handler.rs:659-673 | every exchange carries the original headers while all URLs so far have the first one's scheme, host and port, and the list without sensitive names from then on, also when the chain returns |
| RequestSafety.ContentAlongRun | src/request_handler.rs:652-680 | the method is the original one until a 303, or a 301/302 answer to a POST, and GET ever after; the body is the original one until then or until another origin comes up, and absent ever after |
| RequestSafety.HopsAreNew | src/request_handler.rs:644-648 | no URL is visited twice except by attempts at the first call |
| RequestSafety.SchemesOnlyRise | src/redirect_policy.rs:201-226 | unless downgrades are allowed, the schemes of a run form http* then https* |
| RequestSafety.HopsAreAllowed | src/request_handler.rs:616-621 | every exchange that is not to the request's own URL is to a URL that passes validation, at a host in scope that the redirect policy does not deny and does allow, and only if redirects are followed |
| RequestSafety.AllStayInScope | src/request_handler.rs:475-476 | with the request's own URL in scope, every exchange stays in scope |
| RequestSafety.RunIsShort | src/request_handler.rs:769-830 | at most max(0, max_redirects - 1) hops, and at most max(1, max_attempts) more exchanges |
| RequestSafety.NoBlockedHeader | src/request_handler.rs:475-488 | no header the transport owns is ever sent, on any hop |
| RequestSafety.RunIsSafe | src/request_handler.rs:769-952 | the claims on headers, content, revisits and hops together, for every exchange of a run |
| RequestSafety.RunIsScreened | src/request_handler.rs:475-488 | for a validated request also those on transport-owned headers, schemes and scope |
| RequestSafety.ExecuteIsSafe | src/request_handler.rs:726-880 | both, for every exchange of every execution |
| RequestSafety.SendIsSafe | src/request_handler.rs:1050-1075 | the same for a whole send, with arbitrary interceptors and cut off anywhere |
| RequestSafety.SendIsBounded | src/request_handler.rs:1050-1075 | a whole send makes at most max(1, max_attempts) + max(0, max_redirects - 1) exchanges, none if an interceptor refuses the request |
| RequestSafety.CutRun | src/request_handler.rs:1055-1065 | an aborted run did a prefix of what the whole run does |
| RequestProtocol.RunStory | src/request_handler.rs:726-880 | every run of every request is one of these: refused by validation, aborted by the tracker, refused by the limiter, a cache hit, or its opening, traffic and closing in that order, with the result each of them gives |
| RequestProtocol.FetchEnds | src/request_handler.rs:763-839 | traffic ends only with a refused lookup, a failed exchange, an answer that is not to be followed, or a redirect to nowhere it may go, and its result says so; after an exchange it goes on only for another attempt or hop |
| RequestProtocol.FinishConcludes | src/request_handler.rs:841-880 | what the final answer becomes, by status: an error, a stored and returned response, a revalidated one, or the answer redacted, unless the tracker aborts |
| RequestRules.RefusalsEndRuns | src/request_handler.rs:730-741 | once the tracker or the limiter has refused, nothing happens any more and the caller gets that error |
| RequestRules.GatesComeFirst | src/request_handler.rs:730-741 | nothing is looked up, read, stored or exchanged before the tracker and the limiter, where attached, have consented |
| RequestRules.TagsGoOut | src/request_handler.rs:743-797 | with a cache every attempt of a GET or HEAD comes after a missed read and carries the tag then read; no hop does |
| RequestRules.FinalOutcomesAreLast | src/request_handler.rs:799-830 | after an outcome neither worth another attempt nor a redirect to follow, nothing is looked up or exchanged |
| RequestRules.SuccessIsStored | src/request_handler.rs:868-873 | a 2xx answer to a GET or HEAD is stored, redacted, right after it came in, and nothing else is |
| RequestRules.AttemptsByOutcome | src/request_handler.rs:769-830 | an attempt is followed by another if and only if its outcome is of a kind to be retried and fewer than max(1, max_attempts) were made |
| RequestRules.DefaultAttempts | src/retry.rs:59-75 | by default these are timeouts, 429 and 5xx, with three attempts; a failure to connect and any other answer are not |
| RequestRules.SecretsStayHome | src/request_handler.rs:657-673 | over every send, an exchange with a credential or a body has the scheme, the host and the port, explicit or 443 or 80, of every exchange before it |
| RequestRules.NothingIsDroppedAtHome | src/request_handler.rs:652-673 | while those three agree no header is dropped, and the body only by a 303, or a 301 or 302 to a POST |
| RequestRules.HopsFollowLocation | src/request_handler.rs:684-694 | every exchange with another URL than the request's goes where the first `Location` header of the answer before it points |
| RequestRules.FirstExchange | src/request_handler.rs:778-797 | the first exchange has the URL, method, headers and body the request left the interceptors with |
| RequestRules.ValidRequests | src/request_handler.rs:475-488 | exactly which requests pass: URL in scope, every header valid, none the transport owns |
| RequestRules.RefusedRequests | src/request_handler.rs:475-488 | with which error the others are refused |
| RequestRules.SignalDecides | src/request_handler.rs:1055-1065 | a fired abort signal keeps everything from happening; one that fires in time cuts the run there, and otherwise changes nothing |
| RequestRules.InterceptorsDecide | src/request_handler.rs:1050-1075 | an interceptor's refusal is the result; otherwise the run is that of the request it returned, and the result its response, redacted |
| RequestRules.FirstPinIsKept | src/request_handler.rs:921-934 | all attempts use one pin, and so does every hop back to its host and port |
| RequestTrace.PinnedAddresses | src/request_handler.rs:520-546 | a pin holds every address of the answer with the right port, at least one, none blocked unless opted in |
| RequestTrace.HopPinIsSound | src/request_handler.rs:923-934 | reusing the first pin for a hop gives the hop a pin for its own host and port |
| RequestTrace.FollowIsSound | src/request_handler.rs:894-952 | every pin of a walk comes from an earlier lookup of that host; the walk returns the last answer, whose status is outside 300 to 399 or 304 |
| RequestTrace.SendIsSound | src/request_handler.rs:1050-1075 | in every run, cut anywhere, each event is justified by the events before it: pins if the request is aligned, headers on the wire and use of the cache always |
| RequestTrace.EventsAreAnswers | src/request_handler.rs:726-880 | each event records what tracker, limiter, cache, resolver or server answered there, save that a malformed header is never sent |
| RequestTrace.ConnectionsAreSafe | src/request_handler.rs:490-547 | if the parsed form is right about the URL, every connection goes to addresses that one earlier lookup of that very host gave, on its own port, none blocked unless opted in; without a pin it goes to an unblocked address literal |
| RequestTrace.SentHeadersAreWellFormed | src/request_handler.rs:974-980 | no malformed header is ever sent |
| Alignment.SafeExactlyWhenAligned | src/request_handler.rs:490-547 | a valid request connects safely in every world if and only if its parsed form is right about its URL (valid, literal for literal, same name and port) or a malformed header keeps it off the wire |
| Alignment.ChangedUrlConnectsUnpinned | src/request_handler.rs:111-117 | an input where it is not: the URL was changed to a name, the parsed form still is a literal, and the name is connected to without a pin |
| RequestTrace.StoredResponsesAreRedacted | src/request_handler.rs:857-873 | the cache is only given the last answer to a GET or HEAD, successful and without sensitive headers |
| RequestTrace.ReturnedResponseIsRedacted | src/request_handler.rs:1067-1074 | no sensitive header reaches the caller, whatever interceptors add |
| RequestTrace.ResultIsTheLastAnswer | src/request_handler.rs:841-880 | the caller gets what the interceptors make, redacted, of a cached response without any exchange, or of the last answer, redacted, which is no error status and no redirect when redirects are followed; after a 304 it may be a cached response read in this run, with status 304 |
| BuiltRequests.BuiltIsAligned | src/request_handler.rs:259-286 | a built request's parsed form is right about its URL |
| BuiltRequests.StoredListMatchesAlike | src/redirect_policy.rs:314-322 | a deny list refuses, stored normalised, what it denies as written |
| BuiltRequests.BuiltScopeIsOwnHost | src/builder.rs:464-497 | a built request's scope admits the hosts of its own name and no others, and those only if the deny list does not have them |
| BuiltRequests.BuiltRequestReachesItself | src/request_handler.rs:259-262 | it admits its own URL if and only if the deny list does not have it and, for an IPv6 address, URL and standard library print it alike |
| BuiltRequests.MappedHostIsRefused | src/request_handler.rs:259-262 | an IPv6 address for which a request is built that its own scope refuses |
| BuiltRequests.BuiltRequestsStayOnTheirHost | src/builder.rs:414-500 | over every send whose interceptors leave its target alone, a built request only connects to its own undenied host, at unblocked addresses that a lookup of that host gave or at its own unblocked literal, and follows redirects only if told to and only to the base URL's host |
| BuiltRequests.BuiltRequestSends | src/builder.rs:351-466 | sent as built, a request starts with the builder's default headers, is tried once, makes fewer hops than the builder's maximum and never goes from https to http |
| BuiltRequests.BuiltRedirects | src/builder.rs:351-371 | it may be redirected exactly to the base URL's host within its scope; the opt-in opens the scope to every host |
| BuiltRequests.OptInDecides | src/builder.rs:459-497 | a name that resolves to one address is connected to there if and only if private networks were opted into or the address is not blocked |
| BuiltRequests.BareRequestsStayPut | src/request_handler.rs:259-286 | a request made without a builder is exchanged at most once, with its own URL, method and no headers or body |
| BuiltRequests.BareScopeIsOwnHost | src/request_handler.rs:259-262 | its scope admits the hosts of its own name and no others |
| Builder.ListsArePrinted | src/builder.rs:470-485 | the deny lists as text are the printed form of fourteen and thirteen label patterns |
| Builder.PatternRoundTrip | src/redirect_policy.rs:19-43 | a printed pattern reads back as itself |
| Builder.ListMeans | src/builder.rs:470-485 | a printed list denies exactly the hosts whose labels it describes |
| Builder.DeniesOnAddresses | src/builder.rs:470-485 | which addresses the lists' patterns describe by their labels, octet by octet; the name entries describe none |
| Builder.DeniedAddressesAreBlocked | src/builder.rs:470-485 | which dotted addresses the lists deny, octet by octet, and that all of them are blocked numerically |
| Builder.TextualListIsCoarser | src/builder.rs:476 | the converse fails: most of 172.16.0.0/12 is blocked by number only |
| Builder.ValidNamesSettle | src/url_validation.rs:364-391 | normalising a valid name only lower-cases it |
| Builder.ReservedNamesAreDenied | src/url_validation.rs:392-399 | the lists' name entries deny exactly the reserved names and the two bare suffixes; every reserved name is denied by both lists |
| RedirectPolicy.MatchingIsByLabels | src/redirect_policy.rs:15-44 | a pattern matches exactly the hosts whose labels it describes: `*.S` and `*S` a suffix, `P.*` a prefix, otherwise all labels |
| RedirectPolicy.NormalizeTwice | src/redirect_policy.rs:7-13 | normalisation is idempotent on a text if and only if one pass leaves no white space around it and no closing bracket at its end |
| RedirectPolicy.NormalizesOnceWithoutSpace | src/redirect_policy.rs:7-13 | for text without white space the condition is that no closing bracket is left at the end once the closing brackets and then the dots there are gone; bracketed addresses meet it |
| RedirectPolicy.StoredPatternMatchesAlike | src/redirect_policy.rs:328-335 | an entry matches as stored exactly the hosts it matches as written if and only if it settles in one pass of normalisation |
| RedirectPolicy.BracketsNeedTwoPasses | src/redirect_policy.rs:7-13 | an input that does not settle: a closing bracket before a final dot |
| RedirectPolicy.UnsettledEntryMatchesMore | src/redirect_policy.rs:328-335 | every entry that does not settle, with or without a star, matches as stored a host that it does not match as written |
| RedirectPolicy.ScopeAccepts | src/redirect_policy.rs:352-386 | a parsed URL is in scope exactly when it is http or https and its host is undenied and either allowed or not denied by default |
| RedirectPolicy.ScopeValidator.WithDenyList | src/redirect_policy.rs:314-322 | exactly the hosts that one of the stored entries matches go out of scope |
| RedirectPolicy.ScopeValidator.AllowHost | src/redirect_policy.rs:328-330 | exactly the hosts that the entry as stored matches and no deny entry has come into scope; these are the hosts it matches as written if and only if it settles in one pass |
| RedirectPolicy.ScopeValidator.DenyHost | src/redirect_policy.rs:333-335 | exactly the hosts that the entry as stored matches go out of scope, with the same reading as written |
| RedirectPolicy.DenyBeatsAllow | src/redirect_policy.rs:352-386 | no later allow entry readmits a denied host |
| UrlValidation.RawCheckIsPathCheck | src/url_validation.rs:438-459 | for every path, also an empty one or one set off by backslashes: the check on raw text finds danger exactly in the path from its first slash on, or, if it has none, in the query or fragment from its first slash on |
| UrlValidation.RawCheckWithoutSchemeEnd | src/url_validation.rs:442-450 | without `://` the check looks at the whole text from its first slash on |
| UrlValidation.SlashesInQueryAreRefused | src/url_validation.rs:438-459 | every URL without a path whose query ends in two slashes and has none before is refused for its query |
| UrlValidation.BackslashPathsAreNotScanned | src/url_validation.rs:438-459 | what stands before the first slash of a path never makes a difference to the check |
| UrlValidation.BackslashTraversalIsMissed | src/url_validation.rs:438-459 | an http URL with a traversal that the raw check misses for that reason |
| UrlValidation.AcceptedUrls | src/url_validation.rs:499-553 | exactly which parsed URLs are accepted and what is reported of them; an accepted literal is never blocked |
| UrlValidation.RefusedUrls | src/url_validation.rs:499-553 | for which reason, in which order, the others are refused |
| UrlValidation.DomainShape | src/url_validation.rs:364-391 | a domain name has valid shape exactly if it has at most 253 characters, letters, digits, dashes and dots, neither starts nor ends with a dot or dash nor has one next to a dot, and any 64 characters in a row hold a dot |
| Addresses.PrivateIntervals | src/url_validation.rs:182-215 | the fourteen prefix tests together are a set of octet intervals |
| Addresses.MaskIntervals | src/url_validation.rs:239-274 | each mask test on a segment is one interval |
| Addresses.BlockedIpv6 | src/url_validation.rs:219-274 | which IPv6 addresses are blocked, as intervals; `::` and `::1` are already caught by the embedded branch |
| Addresses.EmbeddingsAgree | src/url_validation.rs:200-284 | an IPv4 address gets one verdict, direct, mapped, compatible or as 6to4 with any tail |
| Addresses.ResolveHost | src/url_validation.rs:295-319 | the resolver's answers without repetitions, an error if there is none |
| Addresses.FirstOccurrencesSpec | src/url_validation.rs:302-310 | removing repetitions loses no address, repeats none and keeps resolver order |
| Addresses.ResolvedNonEmpty | src/url_validation.rs:312-318 | a resolution that succeeds is never empty |
| PercentDecoding.DecodePercentEncoded | src/url_validation.rs:65-98 | the rounds stop after five or when nothing changes |
| PercentDecoding.DecodePass | src/url_validation.rs:70-89 | the index loop is one left-to-right pass and notices whether it replaced anything |
| PercentDecoding.DecodeSplits | src/url_validation.rs:70-89 | neighbouring text cannot swallow an escape |
| PercentDecoding.RoundsPeel | src/url_validation.rs:65-98 | n rounds peel n layers of encoding off any text of plain bytes, each under any number of layers, inside any other text |
| PercentDecoding.PrintedIsRead | src/url_validation.rs:70-89 | a pass turns every byte printed as two hex digits, of either case, back into itself inside any text |
| PercentDecoding.ByteIsFlagged | src/url_validation.rs:105-117 | a backslash or NUL under up to six layers, and a dot or slash under exactly one or six, is flagged inside any path |
| PercentDecoding.ByteIsFlaggedWithinReach | src/url_validation.rs:65-117 | such a byte alone is flagged if and only if its layers are such |
| PercentDecoding.PairsAreFlagged | src/url_validation.rs:105-117 | two adjacent dots, or two slashes, are flagged inside any path if each is encoded up to six times, or either exactly once or six times |
| PercentDecoding.SixLayersIsTheReach | src/url_validation.rs:65-117 | such a pair alone is flagged if and only if its layers are such |
| PercentDecoding.PlainPathsAreFlagged | src/url_validation.rs:105-117 | a path without percent signs is flagged if and only if it holds a backslash, NUL, two dots or two slashes side by side |
| Utf8.LossyKeepsAscii | src/url_validation.rs:94 | the lossy conversion keeps ASCII text unchanged and in place whatever surrounds it |
| Utf8.NextPartIsMaximal | src/url_validation.rs:94 | each step takes one character, or the longest beginning of one, or a single byte that begins none (section 3 of RFC 3629) |
| Utf8.LossyKeepsText | src/url_validation.rs:94 | text in UTF-8 comes through unchanged |
| Utf8.LossyIsText | src/url_validation.rs:94 | whatever comes out is text in UTF-8 |
| HeaderValidation.RedactKeepsTheRest | src/header_validation.rs:130-136 | each header without a sensitive name survives as often as it occurs, no other does |
| HeaderValidation.RedactByPieces | src/header_validation.rs:130-136 | redaction keeps order |
| HeaderValidation.RedactTwice | src/header_validation.rs:130-136 | redaction is idempotent |
| HeaderValidation.SensitiveAreSecret | src/header_validation.rs:103-118 | the sensitive names are ten, in any case |
| HeaderValidation.BlockedAreFraming | src/header_validation.rs:144-152 | the names the transport owns are five, in any case |
| HeaderValidation.SecretsAreDropped | src/header_validation.rs:130-136 | redaction drops the headers of those ten names and keeps all others |
| HeaderValidation.ValidHeaderMeans | src/header_validation.rs:5-41 | which headers are valid: between its ends a value holds no control character but tabs, and a line break there is reported as injection |
| HeaderValidation.ValidateHeadersSpec | src/header_validation.rs:80-87 | a list passes exactly when each header does |
| HeaderValidation.SanitizedHeaderValidates | src/header_validation.rs:65-73 | a sanitised header is lower-case, trimmed and free of line breaks, stays as it is when sanitised again, and passes validation |
| Retry.OnlyOtherRetriesPermanentErrors | src/retry.rs:112-125 | unless the kind for all other errors is listed, no permanent failure is retried |
| CertPinning.TlvIs | src/cert_pinning.rs:177-205 | reading accepts exactly the definite-length elements with at most four length octets that lie inside the buffer |
| CertPinning.ReadTlv | src/cert_pinning.rs:177-205 | the byte parser with its masks computes that |
| CertPinning.ReadLength | src/cert_pinning.rs:192-197 | the shift-or loop computes the big-endian value, below 2^32 |
| CertPinning.ReadInvertsEncoding | src/cert_pinning.rs:270-282 | reading undoes encoding at any offset, whatever surrounds the element |
| CertPinning.ReadFindsEncoding | src/cert_pinning.rs:177-205 | whatever is read is such an encoding, inside the buffer and past the offset |
| CertPinning.EncodeEncodes | src/cert_pinning.rs:270-282 | the encoder produces a definite-length encoding of every content below 2^32 bytes |
| CertPinning.AppendKeepsRead | src/cert_pinning.rs:177-205 | appended bytes do not change what was read |
| CertPinning.SpkiDer | src/cert_pinning.rs:145-174 | the moving-position walk computes the recursive one |
| CertPinning.WalkInvertsCertificate | src/cert_pinning.rs:145-174 | for any field contents, with or without a version, and anything after, the walk returns exactly the encoded SPKI |
| CertPinning.WalkMeans | src/cert_pinning.rs:145-174 | on any bytes, the walk finds exactly the element after five consecutive ones, after the version if there is one, in the SEQUENCE that the first element starts with |
| CertPinning.VersionTagIsAmbiguous | src/cert_pinning.rs:157-161 | without a version, a first field with the version's tag makes the walk return the element after the SPKI, read on past the end of the to-be-signed part if nothing is left in it, or nothing if no element can be read there |
| CertPinning.WalkIsExact | src/cert_pinning.rs:145-174 | what the walk returns on every certificate, whatever follows it |
| CertPinning.WalkIsRight | src/cert_pinning.rs:145-174 | it returns the SPKI if and only if there is a version, the first field does not carry its tag, or the bytes after the SPKI repeat it |
| CertPinning.WalkIgnoresAppended | src/cert_pinning.rs:145-174 | appended bytes do not change the result of a successful walk |
| CertPinning.RenewalKeepsPins | src/cert_pinning.rs:93-98 | certificates with the same SPKI match the same pins, and a certificate matches exactly when its own SPKI's digest is pinned |
| CertPinning.UnreadableNeverMatches | src/cert_pinning.rs:93-98 | a certificate matches exactly when an SPKI is found in it whose digest is pinned |
| RateLimit.RateLimiter.constructor | src/rate_limit.rs:44-51 | max(1, n) free permits and no last start, and the invariant holds |
| RateLimit.RateLimiter.MeasureElapsed | src/rate_limit.rs:86-88 | comparing the elapsed time with the interval under the lock is the measuring step, and keeps the invariant: a pause is planned to end no earlier than the start is due |
| RateLimit.RateLimiter.StampStart | src/rate_limit.rs:92-95 | recording the start is the stamping step, and keeps the invariant: the start is due by then |
| RateLimit.RateLimiter.TryAcquireOwned | src/rate_limit.rs:103-110 | succeeds exactly when a permit is free, without waiting or spacing, and keeps the invariant |
| RateLimit.RateLimiter.DropPending | src/rate_limit.rs:76-96 | an acquire dropped at an await gives back its permit and its lock, and the invariant holds |
| RateLimit.RunKeepsInv | src/rate_limit.rs:76-110 | every step keeps permits, lock, due times and log in agreement |
| RateLimit.PermitsConserved | src/rate_limit.rs:44-51 | free permits, guards and waiting acquires always make up max(1, n); never more guards than that |
| RateLimit.StartsAreSpaced | src/rate_limit.rs:84-93 | recorded starts are apart by the intervals of the clones that recorded the later ones |
| RateLimit.SharedIntervalSpacing | src/rate_limit.rs:84-93 | with one interval d the i-th and j-th start are at least (j - i) * d apart |
| RateLimit.WindowBound | src/rate_limit.rs:53-60 | a window of length W holds at most W / d + 1 starts |
| RateLimit.PausesAreExact | src/rate_limit.rs:84-93 | an acquire goes straight to its start if that is due, and else pauses for just as long as it is not |
| RateLimit.SleepsUntilDue | src/rate_limit.rs:84-93 | such a pause, begun at once, ends just when the start is due |
| RateLimit.NobodyOversleeps | src/rate_limit.rs:84-93 | no pause is longer than the interval, nor is what is left of a sleep |
| RateLimit.GuardsWereSpaced | src/rate_limit.rs:76-96 | an acquire through a limiter with an interval has recorded its start by the time it has its guard |
| RateLimit.StepsAreOpen | src/rate_limit.rs:76-110 | at any time a new task can acquire or try, an acquire can be dropped at any await, a guard can be given back |
| RateLimit.CancelUndoesAcquire | src/rate_limit.rs:76-96 | whatever other tasks do meanwhile, an acquire dropped at any await leaves no trace: the same run without its steps ends in the same state, provided no try failed while it held a permit |
| RateLimit.OthersRunWithout | src/rate_limit.rs:76-110 | taking a pending acquire out of every state of a run leaves a run of the other tasks |
| RateLimit.TryCanTell | src/rate_limit.rs:103-110 | a try that failed meanwhile would have had the permit |
| RateLimit.WaitingIsNeverStuck | src/rate_limit.rs:76-96 | while an acquire waits, some step is possible, at the latest once time passes |
| Cache.KeysAreFaithful | src/cache.rs:84-86 | keys agree exactly when the methods agree up to case and the URLs are equal |
| Cache.SuffixFindsUrl | src/cache.rs:194-205 | dropping by suffix hits exactly the URL's entries |
| CacheLifetimes.DirectiveSaysAge | src/cache.rs:230-240 | a directive is read as n seconds exactly if it is `max-age=` and n in print, with white space, a plus sign and leading zeros at will, below the 64-bit limit |
| CacheLifetimes.FirstAgeWins | src/cache.rs:230-240 | the first directive that says an age wins, malformed ones are passed over |
| CacheLifetimes.LifetimeIsRight | src/cache.rs:149-166 | a response's lifetime is none if its first Cache-Control header holds `no-store` or `no-cache` in any case, the seconds that header names first, and the default otherwise or if the option is off |
| CacheLifetimes.TagIsRight | src/cache.rs:122-130 | its tag is the value of its first ETag header if tags are used |
| Cache.IdealIsLatestPut | src/cache.rs:117-147 | the ideal map holds the latest insert that has not been invalidated |
| Cache.StoredIsIdeal | src/cache.rs:168-186 | what survives eviction and clean-up is what the ideal map holds |
| Cache.InMemoryCache.Get | src/cache.rs:90-101 | a hit is the ideal map's entry within its lifetime; an expired entry is dropped and missed |
| Cache.InMemoryCache.GetEtag | src/cache.rs:104-110 | the tag of the stored entry, expired or not, if tags are used |
| Cache.InMemoryCache.EvictOne | src/cache.rs:168-186 | one entry goes if there is any, an expired one if there is one |
| Cache.InMemoryCache.Insert | src/cache.rs:117-147 | nothing changes if the response asks for no lifetime; otherwise the entry is there afterwards with the lifetime and tag it asks for, at most one other has gone, and the size stays within max(1, max_size) |
| Cache.InMemoryCache.Invalidate | src/cache.rs:189-191 | exactly that key goes |
| Cache.InMemoryCache.InvalidateUrl | src/cache.rs:194-205 | exactly the URL's entries go |
| Cache.InMemoryCache.Clear | src/cache.rs:208-210 | everything goes |
| CacheInterleaving.StepKeepsInv | src/cache.rs:90-210 | every atomic step of every call keeps map, history and hits in agreement |
| CacheInterleaving.EntriesAreLatestInserts | src/cache.rs:117-147 | however calls interleave, a stored entry is the latest insert for its key, not invalidated, with the lifetime and tag that its response asks for |
| CacheInterleaving.HitsAreFreshInserts | src/cache.rs:90-101 | however calls interleave, a lookup returns only the latest insert for its key, younger than the lifetime its response asks for |
| CacheInterleaving.UndisturbedGet | src/cache.rs:90-101 | the steps of one lookup with nothing in between are the lookup of the class |
| CacheInterleaving.InsertWithRoom | src/cache.rs:117-147 | so are those of an insert into a map with room |
| CacheInterleaving.InsertWhenFull | src/cache.rs:132-147 | and those of an insert into a full map, with any victim the class may pick |
| CacheInterleaving.InsertWhenEmpty | src/cache.rs:132-147 | and those of an insert with a limit of zero into an empty map, which is stored all the same |
| CacheInterleaving.UndisturbedInvalidateUrl | src/cache.rs:194-205 | the steps of dropping a URL's entries with nothing in between drop exactly those |
| CacheInterleaving.InvalidationHolds | src/cache.rs:189-210 | however calls interleave, an entry that was invalidated is gone, and whatever is under its key later was stored later |
| CacheInterleaving.LateExpiryDropsFreshEntry | src/cache.rs:92-97 | a lookup that saw an expired entry can remove a newer, live one |
| CacheLosses.MissingEntryWasDropped | src/cache.rs:90-147 | in every reachable state, a live entry of the ideal map is missing if and only if it was first removed, after its insert, by an eviction or by a lookup that had looked before the insert |
| CacheInterleaving.ConcurrentInsertsExceedLimit | src/cache.rs:132-146 | two inserts side by side can exceed the size limit |
| CacheLimit.OneInsertAtATimeKeepsLimit | src/cache.rs:132-146 | with right verdicts of the size check and one insert at a time the limit holds in every run, whatever lookups, invalidations and clearings are interleaved |
| CacheLimit.SharedVictimGrowsMap | src/cache.rs:132-186 | from every full cache, two inserts of new keys that pick the same victim lead to one entry more with all verdicts right, and back to where two more can start |
| PlatformConfig.FivePassesAreOneMap | src/platform_config.rs:167-174 | the five replacements, ampersand first, are one simultaneous per-character map |
| PlatformConfig.UnescapeInvertsEscape | src/platform_config.rs:167-174 | reading the five entities back recovers every string |
| PlatformConfig.EscapedIsInert | src/platform_config.rs:167-174 | escaped text has no raw angle bracket or quote, and each ampersand starts an entity |

## Left out

- Sockets, TLS, proxies, cookies, streaming and WebSocket: foreign calls or thin wrappers around them; the transport is an arbitrary oracle.
- SHA-256 and WebPKI verification: the digest is any function of the SPKI bytes; base64 parsing of pins is not modelled.
- Retry delays come from the backoff crate, which is not part of this model; only the decision and the number of attempts are modelled, and a sleep between attempts is no event.
- Building a client is part of the transport oracle: that it fails is an outcome of the exchange that was not sent.
- The rate limiter appears in the request path as one event; its inside is the separate model. Guards are given back at the end of a request by Rust's drop rule, which is not modelled there.
- Percent-encoding, Unicode and the rest of the URL parser: a URL is the value the parser gives, and the two printed forms of an IPv6 address are part of that value.
- Relative targets of a built request: the joined URL is a parameter, and so is the missing-base-URL error.
- IPv4 network membership is modelled by its meaning, agreement on the prefix bits; the ipnet crate is not part of this model.
- What the URL parser makes of text without `://` or with backslashes: the raw-text check is characterised for every such text, the parser is not.
- CacheInterleaving.Enabled: the count, the search for a victim, the collection of a URL's keys and the clearing walk the shards, so any verdict of the count, any present key as victim and any end of collecting or clearing are allowed; that an expired victim is preferred is stated for single calls only.
- Time stamps are natural numbers; durations saturate nowhere in the ranges the source allows.
- The abort signal's own flag and notification: only that a run may be cut anywhere is used.
- Proofs of the plist and Android generators, logging, error texts, progress amounts, and of the trivial setters: they would only add easy members.
