# Proof-of-work gate: request dispatcher, challenge cache and connection loop

This project models the core of a TCP service that hands out a quote only to
clients that have solved a hashcash-style proof-of-work challenge. The server
issues a challenge stamp bound to the client's address and carrying a random
token. The client solves it and sends it back. The server then checks the
stamp in a fixed order and spends the token.

Modules:

- `Basics` — `Option`, Go's `int64` range, bytes.
- `Encoding` — the token's text form: `fmt.Sprintf("%d")` and `strconv.Atoi`
  on ASCII bytes, and `base64.StdEncoding` (section 4 of RFC 4648, padded,
  lenient about trailing bits and line breaks). The round trips are proved.
- `Pow` — `Stamp`, the `pow.HashcashData` record, and `Verifier`, the type of
  `ComputeHashcash`'s verdict.
- `Protocol` — headers and messages as the dispatcher sees them after parsing.
- `ChallengeStore` — the `Cache` contract. `Store` is its value (token ->
  expiry). `ChallengeCache` is the shared object whose `Add`, `Get` and
  `Delete` update a `map` field. Whether the backing store answers a call
  is an input of that call, so a store can answer one request and fail the
  next.
- `Server` — `ProcessRequest`. `Dispatch` is a pure specification of one
  request. `ProcessRequest` is the same decision made against a
  `ChallengeCache`, and is proved equal to `Dispatch`. The lemmas state the
  security rules: anti-replay, binding to the client, untouched store on every
  rejection, and the client-set bound on the proof-of-work check.
- `Connection` — `handleConnection`'s loop over a sequence of requests.
  `Run` is its specification. `HandleConnection` is the loop, proved equal to
  `Run`. The lemmas cover replay inside one connection.

Collaborators whose code is not part of this model are parameters:

- the clock reading `now`;
- the configuration record;
- the random draws (a subset type with `rand.Intn`'s bounds);
- whether the backing store answers the request's `Add` or `Get`;
- the result of `protocol.ParseMessage` (`None` when it fails);
- the proof-of-work verdict `verify(stamp, maxIter)`.

## Model

| member | source | states |
|---|---|---|
| `Encoding.FormatInt` | internal/server/server.go:130 | `%d` writes canonical text (no plus sign, no leading zero, no `-0`), with a minus sign exactly for negative numbers |
| `Encoding.ParseInt` | internal/server/server.go:163-166 | `Atoi` accepts exactly an optional `+` or `-` followed by one or more digits whose signed value fits in `int64`, and returns that value |
| `Encoding.FormatParseRoundTrip` | internal/server/server.go:163-166 | `Atoi` reads back exactly the number `%d` printed, for every `int64` |
| `Encoding.ParseFormatRoundTrip` | internal/server/server.go:163-166 | on canonical text, `Atoi`'s result prints back as the same text, so `%d` and `Atoi` are inverse there |
| `Encoding.Base64Encode` | internal/server/server.go:130 | the encoding has length 4·⌈n/3⌉ and uses only alphabet and padding characters |
| `Encoding.Base64Decode` | internal/server/server.go:159-162 | text holding any character other than the alphabet, padding or a line break is refused |
| `Encoding.DecodedShape` | internal/server/server.go:159-162 | accepted text uses only alphabet and padding characters, has padding only in its last two places, and yields three bytes per quantum less one per padding character |
| `Encoding.DecodeCanonicalInverse` | internal/server/server.go:159-162 | accepted text whose last quantum has zero unused bits is exactly the encoding of the bytes it decodes to |
| `Encoding.Base64RoundTrip` | internal/server/server.go:159-162 | decoding an encoding gives back the original bytes |
| `Server.TokenRoundTrip` | internal/server/server.go:158-166 | the `Rand` text issued for a token decodes to that same token |
| `Server.ChallengeFor` | internal/server/server.go:125-132 | the challenge stamp has version 1, the configured difficulty, date now, resource = client, counter 0 and a `Rand` that reads back as the token |
| `ChallengeStore.Insert` | internal/server/server.go:44-45 | after `Add` the token is live exactly until now + ttl and expired after that; every other entry is kept |
| `ChallengeStore.Query` | internal/server/server.go:46-47 | `Get` errs exactly when the backing store does not answer, else reports present-and-unexpired |
| `ChallengeStore.Remove` | internal/server/server.go:48-49 | after `Delete` the token is never live again; other entries keep their expiry |
| `ChallengeStore.RemovedStaysDead` | internal/server/server.go:196-197 | a deleted token stays dead through any sequence of later deletions and insertions that does not insert it again |
| `ChallengeStore.ChallengeCache.Add` | internal/server/server.go:44-45 | an error leaves the cache as it was; otherwise the new state is `Insert` of the old |
| `ChallengeStore.ChallengeCache.Get` | internal/server/server.go:46-47 | reads without changing anything and answers as `Query` on the current state |
| `ChallengeStore.ChallengeCache.Delete` | internal/server/server.go:48-49 | the new state is `Remove` of the old |
| `Server.MaxIterations` | internal/server/server.go:181-185 | the bound is never 0; for a positive counter it is the counter, so the check costs no more than the client's claim |
| `Server.Dispatch` | internal/server/server.go:100-202 | a failure leaves the store unchanged; only a challenge request adds, and only its drawn token; replies carry only response headers |
| `Server.ProcessRequest` | internal/server/server.go:100-202 | reply and new cache state are exactly `Dispatch` of the old state |
| `Server.QuitClosesSilently` | internal/server/server.go:107-108 | `Quit` gives `ErrQuit`, no reply, same store |
| `Server.ResponseHeadersRejected` | internal/server/server.go:199-200 | headers the server does not serve give an error, no reply, same store |
| `Server.ChallengeIssued` | internal/server/server.go:115-141 | when the store answers, the drawn token in [0, 100000) is stored for `duration`; the reply stamp has version 1, the configured difficulty, date now, resource = client, counter 0 and a `Rand` that decodes to the token |
| `Server.IssueStep` | internal/server/server.go:115-141 | a challenge request the store accepts replies with exactly `ChallengeFor` and stores exactly `Insert` of the drawn token |
| `Server.ChallengeNotIssuedOnStoreError` | internal/server/server.go:119-123 | if `Add` fails the client gets an error and no challenge |
| `Server.ForeignStampRejected` | internal/server/server.go:150-153 | a stamp naming another client is refused with the same failure whatever the store, clock, token or proof |
| `Server.RedeemSucceedsIffAdmissible` | internal/server/server.go:142-198 | a resource request succeeds iff every check passes, the proof check using the counter-derived bound; then the reply is a quote and the token is gone, else the store is unchanged |
| `Server.RedeemGranted` | internal/server/server.go:142-198 | an admissible stamp is answered with the drawn quote and its token is deleted |
| `Server.StaleStampRejected` | internal/server/server.go:177-180 | a stamp dated more than `duration` ago is refused even while its token is live |
| `Server.SpentTokenRejected` | internal/server/server.go:168-175 | a stamp whose token is not live (never issued, spent or expired) is refused at the lookup: as unknown if the store answers, as a store error if not |
| `Server.ReplayRejected` | internal/server/server.go:169-197 | after a success, the identical request is refused at the lookup at any later time, whether or not the store answers then |
| `Server.IssueThenRedeem` | internal/server/server.go:109-198 | an issued challenge returned in time with an accepted counter earns a quote and spends its token |
| `Server.ExpiredChallengeRefused` | internal/server/server.go:119-175 | a challenge answered more than `duration` seconds after it was issued is refused at the lookup, whatever date and counter the client writes into the stamp |
| `Server.StaleAgreesWithoutOverflow` | internal/server/server.go:178 | the wrapping freshness test and the exact one agree whenever the difference fits in `int64` |
| `Server.AncientStampPassesAsWritten` | internal/server/server.go:178 | the wrapping test takes a stamp dated at the minimum `int64` as fresh |
| `Connection.Run` | internal/server/server.go:78-95 | one reply per request until the first failure; the connection closes on a failure and otherwise when the client stops |
| `Connection.HandleConnection` | internal/server/server.go:78-95 | replies, end and cache state are exactly `Run` from the old cache state |
| `Connection.RunAppend` | internal/server/server.go:78-95 | serving two batches in turn equals serving them joined, up to the first failure |
| `Connection.OnlyResponsesSent` | internal/server/server.go:84-94 | a connection writes only challenge and resource responses |
| `Connection.TokenStaysSpent` | internal/server/server.go:117-120 | an absent token stays absent until some challenge request draws it again |
| `Connection.ReplayInSessionRejected` | internal/server/server.go:169-175 | a redeemed request replayed later on the same connection ends it at the lookup (unknown, or a store error if the store does not answer then), with nothing sent for it |
| `Connection.QuitFirstSendsNothing` | internal/server/server.go:84-88 | a connection opened with `Quit` writes nothing and leaves the store alone |

## Left out

- `Run`, `sendMsg` and the socket side of `handleConnection` (internal/server/server.go:53-70, 204-209) are not modelled. That means TCP accept, reading and writing, and one goroutine per connection. A connection is a finite sequence of parsed requests; a failed read is its end. A failed write is only logged in the source, so the model records each reply as written and carries on.
- `protocol.ParseMessage` and `Stringify` are not part of this model. A request is `Option<Message>`, where `None` means the parser rejected the line. Tag values other than the five headers are not modelled. The two response headers reach the `default` branch.
- `ComputeHashcash` is not part of this model (a hash digest and leading-zero count). Its verdict is the parameter `verify(stamp, maxIter)`. The model proves which bound the server passes (`MaxIterations`). A negative `Counter` is passed on unchanged. Whether `ComputeHashcash` then stops depends on the pow package.
- JSON is abstracted. A payload is either a decoded `Stamp` or text that fails to decode. The `json.Marshal` error branch (internal/server/server.go:133-136) is left out: marshalling a record of integers and strings cannot fail.
- `math/rand` is a parameter. Its draws are constrained only by `rand.Intn`'s bounds.
- The clock is a parameter. One request reads one time value, and the cache's expiry check uses that same value.
- The cache implementation is not shown. The model assumes three things about it. A token is live while `now <= expiry`. `Add` on an existing token overwrites its expiry. `Add` and `Get` fail only when the backing store does not answer that call, given per request as `available`, and `Delete` cannot fail. Locking between connections is not modelled, because the model is sequential.
- Encoding.DecodeCanonicalInverse: covers accepted text whose last quantum has zero unused bits. For other accepted text, the bytes are given only by `DecodeQuanta`'s definition, which drops those bits as Go's non-strict decoder does.
- Configuration loading, `cmd/server/main.go` and logging are left out. `Config` keeps only the three proof-of-work fields.
- The freshness test accepts a stamp dated in the future, as the source does. `Date` is chosen by the client and is never compared with the issue time. So the token's expiry in the store is what actually limits a challenge's lifetime.

## Findings

| source | as written | input that shows it | evidently intended | confidence | as-written member | corrected member |
|---|---|---|---|---|---|---|
| internal/server/server.go:178 | `clock.Now().Unix()-hashcash.Date > conf.HashcashDuration` is computed in wrapping `int64` arithmetic | `Date` = -9223372036854775808, any clock reading >= 0 and duration >= 0: the difference wraps to now - 2^63 < 0, so the stamp counts as fresh | the difference taken without overflow, so that stamp is refused as expired | not executed; medium | `Server.AncientStampPassesAsWritten` | `Server.StaleStampRejected` |

`Dispatch` and `ProcessRequest` use the corrected test `IsStale`.
`Server.StaleAgreesWithoutOverflow` shows that the correction changes nothing
when the subtraction does not overflow.
