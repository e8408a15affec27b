/**
 * The per-connection loop (`handleConnection`), over the sequence of
 * requests a client sends before closing. Reading and writing the socket
 * are not modelled: the sequence ends where a read fails, and the replies
 * the loop hands to `sendMsg` are collected in order.
 */
module Connection {
  import opened Basics
  import opened Protocol
  import opened ChallengeStore
  import opened Server

  /**
   * One line from the client, parsed, with what the environment supplies
   * while it is served: the clock, the random draws, and whether the
   * backing store answers.
   */
  datatype Request = Request(msg: Option<Message>, now: int64, draws: Draws, available: bool)

  /** How a connection ends: the client stopped sending, or a request failed. */
  datatype End = PeerClosed | Closed(failure: Failure)

  /** The replies written, how the connection ended, and the store afterwards. */
  datatype Session = Session(sent: seq<Message>, end: End, store: Store)

  function Prepend(sent: seq<Message>, s: Session): Session {
    s.(sent := sent + s.sent)
  }

  /**
   * The loop over any per-request step: one reply per request until the
   * first failure, which ends the connection with nothing sent for it.
   */
  function Run(requests: seq<Request>, step: (Request, Store) -> Step, store: Store): (r: Session)
    ensures |r.sent| <= |requests|
    ensures r.end.PeerClosed? <==> |r.sent| == |requests|
    decreases |requests|
  {
    if requests == [] then Session([], PeerClosed, store)
    else
      var first := step(requests[0], store);
      match first.outcome
      case Fail(f) => Session([], Closed(f), first.store)
      case Reply(m) => Prepend([m], Run(requests[1..], step, first.store))
  }

  /** The server's step: `ProcessRequest` for this client and configuration. */
  function Transition(clientInfo: string, conf: Config, verify: Pow.Verifier): (Request, Store) -> Step {
    (req: Request, s: Store) => Dispatch(req.msg, clientInfo, req.now, conf, req.draws, req.available, verify, s)
  }

  /** `handleConnection`'s loop, against the shared cache. */
  method HandleConnection(requests: seq<Request>, clientInfo: string, conf: Config,
                          verify: Pow.Verifier, cache: ChallengeCache)
    returns (sent: seq<Message>, end: End)
    modifies cache
    ensures Run(requests, Transition(clientInfo, conf, verify), old(cache.State()))
         == Session(sent, end, cache.State())
  {
    var step := Transition(clientInfo, conf, verify);
    sent := [];
    var i := 0;
    while i < |requests|
      invariant 0 <= i <= |requests|
      invariant Run(requests, step, old(cache.State()))
             == Prepend(sent, Run(requests[i..], step, cache.State()))
    {
      var req := requests[i];
      assert requests[i..][0] == req && requests[i..][1..] == requests[i + 1..];
      var outcome := ProcessRequest(req.msg, clientInfo, req.now, conf, req.draws, req.available, verify, cache);
      if outcome.Fail? {
        return sent, Closed(outcome.failure);
      }
      // A failed write is only logged; the loop reads the next line.
      sent := sent + [outcome.msg];
      i := i + 1;
    }
    end := PeerClosed;
  }

  /** Running two batches of requests in turn is running them joined, up to the first failure. */
  lemma {:induction false} RunAppend(a: seq<Request>, b: seq<Request>, step: (Request, Store) -> Step,
                                     store: Store)
    ensures var first := Run(a, step, store);
      Run(a + b, step, store)
        == if first.end.PeerClosed? then Prepend(first.sent, Run(b, step, first.store)) else first
  {
    if a == [] {
      assert a + b == b;
    } else {
      assert (a + b)[0] == a[0] && (a + b)[1..] == a[1..] + b;
      var head := step(a[0], store);
      if head.outcome.Reply? {
        RunAppend(a[1..], b, step, head.store);
        var rest := Run(a[1..], step, head.store);
        if rest.end.PeerClosed? {
          var tail := Run(b, step, rest.store);
          assert [head.outcome.msg] + (rest.sent + tail.sent) == ([head.outcome.msg] + rest.sent) + tail.sent;
        }
      }
    }
  }

  /** Whether a request asks for a challenge and draws `token` for it. */
  predicate IssuesToken(req: Request, token: int) {
    Issues(req.msg) && req.draws.token == token
  }

  /** A step whose replies are all response messages. */
  ghost predicate RepliesAreResponses(step: (Request, Store) -> Step) {
    forall req, s :: step(req, s).outcome.Reply? ==>
      step(req, s).outcome.msg.header == ResponseChallenge || step(req, s).outcome.msg.header == ResponseResource
  }

  /** A step that can bring `token` into the store only by drawing it for a challenge. */
  ghost predicate KeepsOut(step: (Request, Store) -> Step, token: int) {
    forall req, s: Store :: token !in s.entries && !IssuesToken(req, token) ==>
      token !in step(req, s).store.entries
  }

  lemma TransitionProperties(clientInfo: string, conf: Config, verify: Pow.Verifier, token: int)
    ensures RepliesAreResponses(Transition(clientInfo, conf, verify))
    ensures KeepsOut(Transition(clientInfo, conf, verify), token)
  {
    var step := Transition(clientInfo, conf, verify);
    forall req, s
      ensures step(req, s).outcome.Reply? ==>
        step(req, s).outcome.msg.header == ResponseChallenge || step(req, s).outcome.msg.header == ResponseResource
      ensures token !in s.entries && !IssuesToken(req, token) ==>
        token !in step(req, s).store.entries
    {
      var r := Dispatch(req.msg, clientInfo, req.now, conf, req.draws, req.available, verify, s);
      assert step(req, s) == r;
    }
  }

  /** Messages a client may legitimately receive from the server. */
  predicate AllResponses(sent: seq<Message>) {
    forall i :: 0 <= i < |sent| ==> sent[i].header == ResponseChallenge || sent[i].header == ResponseResource
  }

  lemma {:induction false} RunSendsOnlyResponses(requests: seq<Request>, step: (Request, Store) -> Step,
                                                 store: Store)
    requires RepliesAreResponses(step)
    ensures AllResponses(Run(requests, step, store).sent)
  {
    if requests != [] {
      var head := step(requests[0], store);
      if head.outcome.Reply? {
        var rest := Run(requests[1..], step, head.store);
        RunSendsOnlyResponses(requests[1..], step, head.store);
        var sent := Run(requests, step, store).sent;
        assert sent == [head.outcome.msg] + rest.sent;
        assert AllResponses(rest.sent);
        forall i | 0 < i < |sent|
          ensures sent[i].header == ResponseChallenge || sent[i].header == ResponseResource
        {
          assert sent[i] == rest.sent[i - 1];
        }
      }
    }
  }

  lemma {:induction false} RunKeepsOut(requests: seq<Request>, step: (Request, Store) -> Step,
                                       store: Store, token: int)
    requires KeepsOut(step, token) && token !in store.entries
    requires forall i :: 0 <= i < |requests| ==> !IssuesToken(requests[i], token)
    ensures token !in Run(requests, step, store).store.entries
  {
    if requests != [] {
      assert !IssuesToken(requests[0], token);
      var head := step(requests[0], store);
      if head.outcome.Reply? {
        RunKeepsOut(requests[1..], step, head.store, token);
      }
    }
  }

  /** Every message a connection writes is a challenge or a resource response. */
  lemma OnlyResponsesSent(requests: seq<Request>, clientInfo: string, conf: Config,
                          verify: Pow.Verifier, store: Store)
    ensures AllResponses(Run(requests, Transition(clientInfo, conf, verify), store).sent)
  {
    TransitionProperties(clientInfo, conf, verify, 0);
    RunSendsOnlyResponses(requests, Transition(clientInfo, conf, verify), store);
  }

  /**
   * A token that is not in the store stays out of it for as long as no
   * request draws that same token for a new challenge.
   */
  lemma TokenStaysSpent(requests: seq<Request>, clientInfo: string, conf: Config,
                        verify: Pow.Verifier, store: Store, token: int)
    requires token !in store.entries
    requires forall i :: 0 <= i < |requests| ==> !IssuesToken(requests[i], token)
    ensures token !in Run(requests, Transition(clientInfo, conf, verify), store).store.entries
  {
    TransitionProperties(clientInfo, conf, verify, token);
    RunKeepsOut(requests, Transition(clientInfo, conf, verify), store, token);
  }

  /** The shape of a replay: a success, successes that keep the token out, then a refusal. */
  lemma ReplayShape(first: Request, middle: seq<Request>, again: Request,
                    step: (Request, Store) -> Step, store: Store, token: int, failure: Failure)
    requires step(first, store).outcome.Reply? && token !in step(first, store).store.entries
    requires Run(middle, step, step(first, store).store).end.PeerClosed?
    requires KeepsOut(step, token)
    requires forall i :: 0 <= i < |middle| ==> !IssuesToken(middle[i], token)
    requires forall s: Store :: token !in s.entries ==> step(again, s).outcome == Fail(failure)
    ensures var r := Run([first] + middle + [again], step, store);
      r.end == Closed(failure) && |r.sent| == 1 + |middle|
  {
    var after := step(first, store).store;
    var mid := Run(middle, step, after);
    RunKeepsOut(middle, step, after, token);
    assert step(again, mid.store).outcome == Fail(failure);
    assert Run([again], step, mid.store).end == Closed(failure);
    RunAppend(middle, [again], step, after);
    var requests := [first] + middle + [again];
    assert requests[0] == first && requests[1..] == middle + [again];
  }

  /** The failure a replayed redeem meets at the lookup. */
  function ReplayFailure(again: Request): Failure {
    if again.available then ChallengeUnknown else GetFailed
  }

  /** After a successful redeem, the same request is refused on any store without its token. */
  lemma RedeemedRequestRefused(first: Request, again: Request, clientInfo: string, conf: Config,
                               verify: Pow.Verifier, store: Store)
    requires first.msg.Some? && first.msg.value.header == RequestResource
    requires again.msg == first.msg
    requires Transition(clientInfo, conf, verify)(first, store).outcome.Reply?
    ensures first.msg.value.payload.Encoded? && TokenValue(first.msg.value.payload.stamp.rand).Some?
    ensures var token := TokenValue(first.msg.value.payload.stamp.rand).value;
      && token !in Transition(clientInfo, conf, verify)(first, store).store.entries
      && forall s: Store :: token !in s.entries ==>
           Transition(clientInfo, conf, verify)(again, s).outcome == Fail(ReplayFailure(again))
  {
    var stamp := first.msg.value.payload.stamp;
    RedeemSucceedsIffAdmissible(first.msg.value.payload, clientInfo, first.now, conf, first.draws,
                                first.available, verify, store);
    var token := TokenValue(stamp.rand).value;
    forall s: Store | token !in s.entries
      ensures Transition(clientInfo, conf, verify)(again, s).outcome == Fail(ReplayFailure(again))
    {
      SpentTokenRejected(stamp, clientInfo, again.now, conf, again.draws, again.available, verify, s);
    }
  }

  /**
   * Anti-replay within a connection: a resource request that succeeded,
   * sent again later on the same connection after any run of successful
   * requests that do not re-issue its token, ends the connection at the
   * lookup, as unknown or, if the store does not answer then, as a store
   * error; nothing is sent for it.
   */
  lemma ReplayInSessionRejected(first: Request, middle: seq<Request>, again: Request,
                                clientInfo: string, conf: Config, verify: Pow.Verifier, store: Store)
    requires first.msg.Some? && first.msg.value.header == RequestResource
    requires first.msg.value.payload.Encoded?  // implied by the success below, stated for reading its token
    requires again.msg == first.msg
    requires Transition(clientInfo, conf, verify)(first, store).outcome.Reply?
    requires var after := Transition(clientInfo, conf, verify)(first, store).store;
      Run(middle, Transition(clientInfo, conf, verify), after).end.PeerClosed?
    requires var token := TokenValue(first.msg.value.payload.stamp.rand);
      token.Some? && forall i :: 0 <= i < |middle| ==> !IssuesToken(middle[i], token.value)
    ensures var r := Run([first] + middle + [again], Transition(clientInfo, conf, verify), store);
      r.end == Closed(ReplayFailure(again)) && |r.sent| == 1 + |middle|
  {
    var step := Transition(clientInfo, conf, verify);
    RedeemedRequestRefused(first, again, clientInfo, conf, verify, store);
    var token := TokenValue(first.msg.value.payload.stamp.rand).value;
    TransitionProperties(clientInfo, conf, verify, token);
    ReplayShape(first, middle, again, step, store, token, ReplayFailure(again));
  }

  /** A connection whose first request is a quit writes nothing and leaves the store alone. */
  lemma QuitFirstSendsNothing(first: Request, rest: seq<Request>, clientInfo: string, conf: Config,
                              verify: Pow.Verifier, store: Store)
    requires first.msg.Some? && first.msg.value.header == Quit
    ensures Run([first] + rest, Transition(clientInfo, conf, verify), store)
         == Session([], Closed(ErrQuit), store)
  {
    assert ([first] + rest)[0] == first;
  }
}
