/**
 * The request dispatcher of the proof-of-work gate (`ProcessRequest`).
 *
 * `Dispatch` is the specification: one request, the client's identity, the
 * time, the configuration, the random draws and the store in, the outcome
 * and the new store out. `ProcessRequest` is the same decision carried out
 * against the shared `ChallengeCache` object, and is proved to agree with it.
 */
module Server {
  import opened Basics
  import opened Encoding
  import opened Pow
  import opened Protocol
  import opened ChallengeStore

  /** The reward payloads a solved challenge buys. */
  const Quotes: seq<string> := [
    "All saints who remember to keep and do these sayings, "
      + "walking in obedience to the commandments, "
      + "shall receive health in their navel and marrow to their bones",
    "And shall find wisdom and great treasures of knowledge, even hidden treasures",
    "And shall run and not be weary, and shall walk and not faint",
    "And I, the Lord, give unto them a promise, "
      + "that the destroying angel shall pass by them, "
      + "as the children of Israel, and not slay them"
  ]

  /** Tokens are drawn from `[0, TokenSpace)`. */
  const TokenSpace: int := 100000

  /** The part of the read-only configuration the server consults. */
  datatype Config = Config(zerosCount: int64, duration: int64, maxIterations: int64)

  /** The values `math/rand` supplies: a token and the index of a quote. */
  datatype RandomDraws = RandomDraws(token: int, quote: int)

  /** Draws within what `rand.Intn(100000)` and `rand.Intn(4)` guarantee. */
  type Draws = d: RandomDraws | 0 <= d.token < TokenSpace && 0 <= d.quote < |Quotes|
    witness RandomDraws(0, 0)

  /** Why a request produced no reply; every one of them ends the connection. */
  datatype Failure =
    | ParseFailed       // protocol.ParseMessage rejected the line
    | ErrQuit           // the client asked to close the connection
    | AddFailed         // the store did not accept a new token
    | UnmarshalFailed   // the payload is not a stamp
    | ResourceMismatch  // the stamp names another client
    | RandUndecodable   // the token text is not base64 of a decimal number
    | GetFailed         // the store did not answer a lookup
    | ChallengeUnknown  // never issued, already redeemed, or expired
    | ChallengeExpired  // the stamp's date is older than the duration
    | InvalidHashcash   // the proof of work does not check
    | UnknownHeader     // a header the server does not serve

  /** `(*protocol.Message, error)`: exactly one of the two is set. */
  datatype Outcome = Reply(msg: Message) | Fail(failure: Failure)

  datatype Step = Step(outcome: Outcome, store: Store)

  // ---------------------------------------------------------------------
  // Pure pieces of the dispatcher
  // ---------------------------------------------------------------------

  /** The `rand` field for a token: base64 of its decimal digits. */
  function TokenText(token: int): string {
    Base64Encode(FormatInt(token))
  }

  /** The token a `rand` field names, if it decodes. */
  function TokenValue(rand: string): Option<int64> {
    match Base64Decode(rand)
    case None => None
    case Some(digits) => ParseInt(digits)
  }

  /** Every token the server hands out is read back as itself. */
  lemma TokenRoundTrip(token: int64)
    ensures TokenValue(TokenText(token)) == Some(token)
  {
    Base64RoundTrip(FormatInt(token));
    FormatParseRoundTrip(token);
  }

  /**
   * The stamp sent with a challenge: version 1, the configured difficulty,
   * dated now, bound to the client, counter 0, and a `rand` field that
   * reads back as the token.
   */
  function ChallengeFor(conf: Config, now: int64, clientInfo: string, token: int64): (r: Stamp)
    ensures r.version == 1 && r.zerosCount == conf.zerosCount && r.counter == 0
    ensures r.date == now && r.resource == clientInfo
    ensures TokenValue(r.rand) == Some(token)
  {
    TokenRoundTrip(token);
    Stamp(1, conf.zerosCount, now, clientInfo, TokenText(token), 0)
  }

  /**
   * The iteration bound handed to `ComputeHashcash`: the client's own
   * counter, except that 0 (which would mean "no bound") becomes 1.
   */
  function MaxIterations(counter: int64): (r: int64)
    ensures r != 0
    ensures counter > 0 ==> r == counter
    ensures counter >= 0 ==> 1 <= r <= counter + 1
    ensures counter < 0 ==> r == counter
  {
    if counter == 0 then 1 else counter
  }

  /** A stamp is stale when more than `duration` seconds have passed since its date. */
  predicate IsStale(now: int64, date: int64, duration: int64) {
    now - date > duration
  }

  /** Two's-complement wrap-around of a mathematical integer into `int64`. */
  function Wrap64(x: int): (r: int64)
    ensures MinInt64 <= x <= MaxInt64 ==> r == x
    ensures (r - x) % 0x1_0000_0000_0000_0000 == 0
  {
    (x - MinInt64) % 0x1_0000_0000_0000_0000 + MinInt64
  }

  /** The freshness test as the Go code computes it, in wrapping `int64` arithmetic. */
  predicate StaleAsWritten(now: int64, date: int64, duration: int64) {
    Wrap64(now - date) > duration
  }

  /** The two tests agree whenever the difference does not overflow. */
  lemma StaleAgreesWithoutOverflow(now: int64, date: int64, duration: int64)
    requires MinInt64 <= now - date <= MaxInt64
    ensures StaleAsWritten(now, date, duration) == IsStale(now, date, duration)
  {
  }

  /**
   * The discrepancy: a stamp dated at the very start of `int64` time is
   * accepted as fresh by the wrapping test at any non-negative clock
   * reading and any non-negative duration, although it is older than
   * every duration an `int64` can hold.
   */
  lemma AncientStampPassesAsWritten(now: int64, duration: int64)
    requires now >= 0 && duration >= 0
    ensures !StaleAsWritten(now, MinInt64, duration)
    ensures IsStale(now, MinInt64, duration)
  {
    assert Wrap64(now - MinInt64) == now + MinInt64;
  }

  /** Whether a request asks for a new challenge. */
  predicate Issues(req: Option<Message>) {
    req.Some? && req.value.header == RequestChallenge
  }

  // ---------------------------------------------------------------------
  // The decision
  // ---------------------------------------------------------------------

  /**
   * One request. `req` is what `protocol.ParseMessage` made of the line
   * (None when it failed); `verify` is `ComputeHashcash`'s verdict.
   */
  function Dispatch(req: Option<Message>, clientInfo: string, now: int64, conf: Config,
                    draws: Draws, available: bool, verify: Verifier, store: Store): (r: Step)
    // a rejection or error never touches the store
    ensures r.outcome.Fail? ==> r.store == store
    // only a challenge request adds, and only the token it drew
    ensures r.store.entries.Keys <= store.entries.Keys + {draws.token}
    ensures !Issues(req) ==> r.store.entries.Keys <= store.entries.Keys
    // replies carry only the two response headers
    ensures r.outcome.Reply? ==> r.outcome.msg.header in {ResponseChallenge, ResponseResource}
  {
    match req
    case None => Step(Fail(ParseFailed), store)
    case Some(msg) =>
      match msg.header
      case Quit => Step(Fail(ErrQuit), store)
      case RequestChallenge => IssueChallenge(clientInfo, now, conf, draws, available, store)
      case RequestResource => Redeem(msg.payload, clientInfo, now, conf, draws, available, verify, store)
      case _ => Step(Fail(UnknownHeader), store)
  }

  /** The `RequestChallenge` branch. */
  function IssueChallenge(clientInfo: string, now: int64, conf: Config, draws: Draws,
                          available: bool, store: Store): Step
  {
    if !available then Step(Fail(AddFailed), store)
    else
      Step(Reply(Message(ResponseChallenge, Encoded(ChallengeFor(conf, now, clientInfo, draws.token)))),
           Insert(store, draws.token, conf.duration, now))
  }

  /** The `RequestResource` branch, checks in the order the server makes them. */
  function Redeem(payload: Payload, clientInfo: string, now: int64, conf: Config,
                  draws: Draws, available: bool, verify: Verifier, store: Store): Step
  {
    match payload
    case Plain(_) => Step(Fail(UnmarshalFailed), store)
    case Encoded(stamp) =>
      if stamp.resource != clientInfo then Step(Fail(ResourceMismatch), store)
      else match TokenValue(stamp.rand)
        case None => Step(Fail(RandUndecodable), store)
        case Some(token) =>
          match Query(store, token, now, available)
          case Unavailable => Step(Fail(GetFailed), store)
          case Answer(found) =>
            if !found then Step(Fail(ChallengeUnknown), store)
            else if IsStale(now, stamp.date, conf.duration) then Step(Fail(ChallengeExpired), store)
            else if !verify(stamp, MaxIterations(stamp.counter)) then Step(Fail(InvalidHashcash), store)
            else Step(Reply(Message(ResponseResource, Plain(Quotes[draws.quote]))), Remove(store, token))
  }

  /** `ProcessRequest`, acting on the shared cache object. */
  method ProcessRequest(req: Option<Message>, clientInfo: string, now: int64, conf: Config,
                        draws: Draws, available: bool, verify: Verifier, cache: ChallengeCache)
    returns (outcome: Outcome)
    modifies cache
    ensures Step(outcome, cache.State())
         == Dispatch(req, clientInfo, now, conf, draws, available, verify, old(cache.State()))
  {
    if req.None? {
      return Fail(ParseFailed);
    }
    var msg := req.value;
    match msg.header {
      case Quit =>
        return Fail(ErrQuit);
      case RequestChallenge =>
        var token := draws.token;
        var ok := cache.Add(token, conf.duration, now, available);
        if !ok {
          return Fail(AddFailed);
        }
        var stamp := ChallengeFor(conf, now, clientInfo, token);
        return Reply(Message(ResponseChallenge, Encoded(stamp)));
      case RequestResource =>
        if msg.payload.Plain? {
          return Fail(UnmarshalFailed);
        }
        var stamp := msg.payload.stamp;
        if stamp.resource != clientInfo {
          return Fail(ResourceMismatch);
        }
        var digits := Base64Decode(stamp.rand);
        if digits.None? {
          return Fail(RandUndecodable);
        }
        var parsed := ParseInt(digits.value);
        if parsed.None? {
          return Fail(RandUndecodable);
        }
        var token := parsed.value;
        var lookup := cache.Get(token, now, available);
        if lookup.Unavailable? {
          return Fail(GetFailed);
        }
        if !lookup.found {
          return Fail(ChallengeUnknown);
        }
        if IsStale(now, stamp.date, conf.duration) {
          return Fail(ChallengeExpired);
        }
        if !verify(stamp, MaxIterations(stamp.counter)) {
          return Fail(InvalidHashcash);
        }
        var reply := Message(ResponseResource, Plain(Quotes[draws.quote]));
        cache.Delete(token);
        return Reply(reply);
      case _ =>
        return Fail(UnknownHeader);
    }
  }

  // ---------------------------------------------------------------------
  // What the dispatcher guarantees
  // ---------------------------------------------------------------------

  /** A quit request closes the connection: no reply, store untouched. */
  lemma QuitClosesSilently(payload: Payload, clientInfo: string, now: int64, conf: Config,
                           draws: Draws, available: bool, verify: Verifier, store: Store)
    ensures Dispatch(Some(Message(Quit, payload)), clientInfo, now, conf, draws, available, verify, store)
         == Step(Fail(ErrQuit), store)
  {
  }

  /** The response headers are not requests the server serves. */
  lemma ResponseHeadersRejected(msg: Message, clientInfo: string, now: int64, conf: Config,
                                draws: Draws, available: bool, verify: Verifier, store: Store)
    requires msg.header == ResponseChallenge || msg.header == ResponseResource
    ensures Dispatch(Some(msg), clientInfo, now, conf, draws, available, verify, store)
         == Step(Fail(UnknownHeader), store)
  {
  }

  /**
   * A challenge request the store accepts registers the drawn token for
   * `duration` seconds and replies with a stamp bound to this client, at
   * the configured difficulty, dated now, with counter 0 and a `rand`
   * field that reads back as the registered token.
   */
  lemma ChallengeIssued(payload: Payload, clientInfo: string, now: int64, conf: Config,
                        draws: Draws, verify: Verifier, store: Store)
    ensures var r := Dispatch(Some(Message(RequestChallenge, payload)), clientInfo, now, conf, draws, true, verify, store);
      && r.outcome.Reply?
      && r.outcome.msg.header == ResponseChallenge
      && r.outcome.msg.payload.Encoded?
      && var stamp := r.outcome.msg.payload.stamp;
      && stamp.version == 1
      && stamp.zerosCount == conf.zerosCount
      && stamp.date == now
      && stamp.resource == clientInfo
      && stamp.counter == 0
      && TokenValue(stamp.rand) == Some(draws.token as int64)
      && 0 <= draws.token < TokenSpace
      && r.store == Insert(store, draws.token, conf.duration, now)
  {
  }

  /** When the store refuses the token, the client gets an error and no challenge. */
  lemma ChallengeNotIssuedOnStoreError(payload: Payload, clientInfo: string, now: int64, conf: Config,
                                       draws: Draws, verify: Verifier, store: Store)
    ensures Dispatch(Some(Message(RequestChallenge, payload)), clientInfo, now, conf, draws, false, verify, store)
         == Step(Fail(AddFailed), store)
  {
  }

  /**
   * A stamp bound to another client is refused before the store is
   * consulted: the failure is the same whatever the store, the clock, the
   * token text or the proof of work.
   */
  lemma ForeignStampRejected(stamp: Stamp, clientInfo: string, now: int64, conf: Config,
                             draws: Draws, available: bool, verify: Verifier, store: Store)
    requires stamp.resource != clientInfo
    ensures Dispatch(Some(Message(RequestResource, Encoded(stamp))), clientInfo, now, conf, draws, available, verify, store)
         == Step(Fail(ResourceMismatch), store)
  {
  }

  /** Every check a redeemed stamp has to pass, stated on its own. */
  predicate Admissible(stamp: Stamp, clientInfo: string, now: int64, conf: Config,
                       available: bool, verify: Verifier, store: Store)
  {
    && stamp.resource == clientInfo
    && TokenValue(stamp.rand).Some?
    && available
    && Live(store.entries, TokenValue(stamp.rand).value, now)
    && now - stamp.date <= conf.duration
    && verify(stamp, MaxIterations(stamp.counter))
  }

  /**
   * A resource request succeeds exactly when its payload is an admissible
   * stamp; then the reply is one of the quotes, the proof of work was
   * checked with a bound set by the client's own counter, and the token is
   * gone. Otherwise the store is as it was.
   */
  lemma RedeemSucceedsIffAdmissible(payload: Payload, clientInfo: string, now: int64, conf: Config,
                                    draws: Draws, available: bool, verify: Verifier, store: Store)
    ensures var r := Dispatch(Some(Message(RequestResource, payload)), clientInfo, now, conf, draws, available, verify, store);
      && (r.outcome.Reply? <==> payload.Encoded? && Admissible(payload.stamp, clientInfo, now, conf, available, verify, store))
      && (r.outcome.Reply? ==>
            && r.outcome.msg.header == ResponseResource
            && r.outcome.msg.payload.Plain?
            && r.outcome.msg.payload.text in Quotes
            && var token := TokenValue(payload.stamp.rand).value;
            && r.store == Remove(store, token)
            && !Live(r.store.entries, token, now))
      && (r.outcome.Fail? ==> r.store == store)
  {
    var r := Dispatch(Some(Message(RequestResource, payload)), clientInfo, now, conf, draws, available, verify, store);
    if r.outcome.Reply? {
      assert Quotes[draws.quote] in Quotes;
    }
  }

  /**
   * A stamp dated more than `duration` seconds ago is refused even while
   * its token is still live in the store.
   */
  lemma StaleStampRejected(stamp: Stamp, clientInfo: string, now: int64, conf: Config,
                           draws: Draws, verify: Verifier, store: Store)
    requires stamp.resource == clientInfo
    requires TokenValue(stamp.rand).Some? && Live(store.entries, TokenValue(stamp.rand).value, now)
    requires stamp.date < now - conf.duration
    ensures Dispatch(Some(Message(RequestResource, Encoded(stamp))), clientInfo, now, conf, draws, true, verify, store)
         == Step(Fail(ChallengeExpired), store)
  {
  }

  /**
   * A stamp whose token is not live in the store (never issued, spent, or
   * expired) is refused at the lookup: as unknown when the store answers,
   * as a store error when it does not.
   */
  lemma SpentTokenRejected(stamp: Stamp, clientInfo: string, now: int64, conf: Config,
                           draws: Draws, available: bool, verify: Verifier, store: Store)
    requires stamp.resource == clientInfo
    requires TokenValue(stamp.rand).Some? && !Live(store.entries, TokenValue(stamp.rand).value, now)
    ensures Dispatch(Some(Message(RequestResource, Encoded(stamp))), clientInfo, now, conf, draws, available, verify, store)
         == Step(Fail(if available then ChallengeUnknown else GetFailed), store)
  {
  }

  /**
   * Anti-replay: once a resource request has succeeded, sending the very
   * same request again, at any time, whatever the random draws and
   * whether or not the store answers, is refused at the lookup because
   * its token was deleted.
   */
  lemma ReplayRejected(req: Option<Message>, clientInfo: string, now: int64, later: int64, conf: Config,
                       draws: Draws, draws': Draws, available: bool, available': bool,
                       verify: Verifier, store: Store)
    requires req.Some? && req.value.header == RequestResource
    requires Dispatch(req, clientInfo, now, conf, draws, available, verify, store).outcome.Reply?
    ensures var after := Dispatch(req, clientInfo, now, conf, draws, available, verify, store).store;
      Dispatch(req, clientInfo, later, conf, draws', available', verify, after)
        == Step(Fail(if available' then ChallengeUnknown else GetFailed), after)
  {
    var stamp := req.value.payload.stamp;
    RedeemSucceedsIffAdmissible(req.value.payload, clientInfo, now, conf, draws, available, verify, store);
    var after := Dispatch(req, clientInfo, now, conf, draws, available, verify, store).store;
    SpentTokenRejected(stamp, clientInfo, later, conf, draws', available', verify, after);
  }

  /**
   * The honest round: a challenge issued at `issued` and answered, before
   * the duration has run out, with the same stamp and a counter the proof
   * of work accepts, is granted a quote, and its token is spent.
   */
  lemma IssueThenRedeem(clientInfo: string, issued: int64, now: int64, conf: Config,
                        draws: Draws, draws': Draws, verify: Verifier, store: Store,
                        challenge: Payload, counter: int64)
    requires issued <= now <= issued + conf.duration
    requires verify(ChallengeFor(conf, issued, clientInfo, draws.token).(counter := counter), MaxIterations(counter))
    ensures var first := Dispatch(Some(Message(RequestChallenge, challenge)), clientInfo, issued, conf, draws, true, verify, store);
      var solved := first.outcome.msg.payload.stamp.(counter := counter);
      var second := Dispatch(Some(Message(RequestResource, Encoded(solved))), clientInfo, now, conf, draws', true, verify, first.store);
      && second.outcome == Reply(Message(ResponseResource, Plain(Quotes[draws'.quote])))
      && second.store == Remove(first.store, draws.token)
  {
    IssueStep(challenge, clientInfo, issued, conf, draws, verify, store);
    var solved := ChallengeFor(conf, issued, clientInfo, draws.token).(counter := counter);
    var issuedStore := Insert(store, draws.token, conf.duration, issued);
    assert Live(issuedStore.entries, draws.token, now);
    RedeemGranted(solved, clientInfo, now, conf, draws', verify, issuedStore);
  }

  /** A challenge request the store accepts, as one step. */
  lemma IssueStep(challenge: Payload, clientInfo: string, issued: int64, conf: Config,
                  draws: Draws, verify: Verifier, store: Store)
    ensures Dispatch(Some(Message(RequestChallenge, challenge)), clientInfo, issued, conf, draws, true, verify, store)
         == Step(Reply(Message(ResponseChallenge, Encoded(ChallengeFor(conf, issued, clientInfo, draws.token)))),
                 Insert(store, draws.token, conf.duration, issued))
  {
  }

  /** An admissible stamp, as one step: a quote, and its token deleted. */
  lemma RedeemGranted(stamp: Stamp, clientInfo: string, now: int64, conf: Config,
                      draws: Draws, verify: Verifier, store: Store)
    requires Admissible(stamp, clientInfo, now, conf, true, verify, store)
    ensures Dispatch(Some(Message(RequestResource, Encoded(stamp))), clientInfo, now, conf, draws, true, verify, store)
         == Step(Reply(Message(ResponseResource, Plain(Quotes[draws.quote]))),
                 Remove(store, TokenValue(stamp.rand).value))
  {
  }

  /**
   * Challenges expire: a challenge answered more than `duration` seconds
   * after it was issued is refused at the lookup, whatever date and
   * counter the client writes into the stamp, because the store no longer
   * holds its token as live.
   */
  lemma ExpiredChallengeRefused(clientInfo: string, issued: int64, now: int64, conf: Config,
                                draws: Draws, draws': Draws, available: bool, verify: Verifier, store: Store,
                                challenge: Payload, date: int64, counter: int64)
    requires now > issued + conf.duration
    ensures var first := Dispatch(Some(Message(RequestChallenge, challenge)), clientInfo, issued, conf, draws, true, verify, store);
      var late := first.outcome.msg.payload.stamp.(date := date, counter := counter);
      Dispatch(Some(Message(RequestResource, Encoded(late))), clientInfo, now, conf, draws', available, verify, first.store)
        == Step(Fail(if available then ChallengeUnknown else GetFailed), first.store)
  {
    ChallengeIssued(challenge, clientInfo, issued, conf, draws, verify, store);
    var first := Dispatch(Some(Message(RequestChallenge, challenge)), clientInfo, issued, conf, draws, true, verify, store);
    var late := first.outcome.msg.payload.stamp.(date := date, counter := counter);
    assert TokenValue(late.rand) == Some(draws.token as int64);
    assert !Live(first.store.entries, draws.token, now);
    SpentTokenRejected(late, clientInfo, now, conf, draws', available, verify, first.store);
  }
}
