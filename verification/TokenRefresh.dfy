/**
 The token-refresh protocol of the mobile API client.  Every request runs the same code, and between two
 `await`s any other request may run.  An `Event` is one such uninterrupted stretch; `Step` is what it does
 to the shared state, or None when it cannot happen there.
 */
module TokenRefresh {
  import opened Common

  /** A token is known by the order in which the server issued it. */
  type Token = nat
  type Id = nat

  const UNAUTHORIZED: nat := 401

  datatype Phase =
    | ReadingRefreshToken
    | AwaitingServer
    | Clearing
    | ReadingBody
    | Storing(token: Token)

  datatype Pc =
    | Reading                         // awaiting the stored access token
    | Loaded(stored: Option<Token>)   // the stored token has been read, the request not yet sent
    | Sent
    | Waiting(refresh: nat)           // queued behind refresh number `refresh`
    | Resolved(token: Token)          // the waiter's promise is resolved, its continuation not yet run
    | Refreshing(phase: Phase)
    | Done

  /**
   One call of apiFetch together with its retry.  `header` is the Authorization header in its options,
   `sent` the Authorization headers of the HTTP requests it sent, `resolvedWith` the tokens it was released with.
   */
  datatype Request = Request(pc: Pc, retry: bool, header: Option<Token>,
                             sent: seq<Option<Token>>, resolvedWith: seq<Token>)

  /**
   `inflight` holds the access tokens whose write to the secure store has been issued and has not landed;
   `issued` and `refreshes` count the tokens issued and the refreshes started; `owner` records which request
   set `isRefreshing`.
   */
  datatype State = State(isRefreshing: bool, queue: seq<Id>, access: Option<Token>, inflight: set<Token>,
                         issued: nat, refreshes: nat, owner: Option<Id>, requests: map<Id, Request>)

  /** The app has started: no request yet, and at most a token of an earlier session in the store. */
  predicate Started(s: State) {
    && s.requests == map[] && s.queue == [] && !s.isRefreshing && s.owner == None
    && s.inflight == {} && Landed(s, s.access)
  }

  datatype Event =
    | Begin(id: Id)
    | StoreRead(id: Id)
    | Send(id: Id)
    | Respond(id: Id, status: nat)
    | NetworkError(id: Id)
    | RefreshTokenRead(id: Id, found: bool)
    | RefreshReply(id: Id, ok: bool)
    | TokensCleared(id: Id)
    | RefreshBody(id: Id)
    | RefreshStored(id: Id)
    | RefreshThrows(id: Id)
    | Resume(id: Id)
    // the rest of the app and the secure store
    | LoginIssues
    | WriteLands(token: Token)
    | LogoutClears

  function Put(s: State, id: Id, q: Request): State {
    s.(requests := s.requests[id := q])
  }

  predicate At(s: State, id: Id, pc: Pc) {
    id in s.requests && s.requests[id].pc == pc
  }

  /** Every queued resolver is called with the new token. */
  function Release(requests: map<Id, Request>, queue: seq<Id>, token: Token): map<Id, Request> {
    map id | id in requests ::
      if id in queue
      then requests[id].(pc := Resolved(token), resolvedWith := requests[id].resolvedWith + [token])
      else requests[id]
  }

  /** The catch block: the queue is dropped, nobody in it is told. */
  function Abandon(s: State, id: Id): State
    requires id in s.requests
  {
    Put(s, id, s.requests[id].(pc := Done)).(queue := [], isRefreshing := false, owner := None)
  }

  function Step(s: State, e: Event): Option<State> {
    match e
    case Begin(id) =>
      if id in s.requests then None else Some(Put(s, id, Request(Reading, true, None, [], [])))
    case StoreRead(id) =>
      if At(s, id, Reading) then Some(Put(s, id, s.requests[id].(pc := Loaded(s.access)))) else None
    case Send(id) =>
      if id in s.requests && s.requests[id].pc.Loaded? then
        var q := s.requests[id];
        var auth := if q.pc.stored.Some? then q.pc.stored else q.header;
        Some(Put(s, id, q.(pc := Sent, sent := q.sent + [auth])))
      else None
    case Respond(id, status) =>
      if !At(s, id, Sent) then None
      else
        var q := s.requests[id];
        if status == UNAUTHORIZED && q.retry then
          if s.isRefreshing
          then Some(Put(s, id, q.(pc := Waiting(s.refreshes))).(queue := s.queue + [id]))
          else Some(Put(s, id, q.(pc := Refreshing(ReadingRefreshToken)))
                    .(isRefreshing := true, refreshes := s.refreshes + 1, owner := Some(id)))
        else Some(Put(s, id, q.(pc := Done)))
    case NetworkError(id) =>
      if At(s, id, Sent) then Some(Put(s, id, s.requests[id].(pc := Done))) else None
    case RefreshTokenRead(id, found) =>
      if !At(s, id, Refreshing(ReadingRefreshToken)) then None
      else if found then Some(Put(s, id, s.requests[id].(pc := Refreshing(AwaitingServer))))
      else Some(Abandon(s, id))
    case RefreshReply(id, ok) =>
      if !At(s, id, Refreshing(AwaitingServer)) then None
      else Some(Put(s, id, s.requests[id].(pc := Refreshing(if ok then ReadingBody else Clearing))))
    case TokensCleared(id) =>
      if At(s, id, Refreshing(Clearing)) then Some(Abandon(s, id).(access := None)) else None
    case RefreshBody(id) =>
      if At(s, id, Refreshing(ReadingBody)) then
        Some(Put(s, id, s.requests[id].(pc := Refreshing(Storing(s.issued))))
             .(inflight := s.inflight + {s.issued}, issued := s.issued + 1))
      else None
    case RefreshStored(id) =>
      if StoredBy(s, id) then
        var token := s.requests[id].pc.phase.token;
        var released := s.(requests := Release(s.requests, s.queue, token), queue := [], isRefreshing := false,
                           owner := None);
        Some(Put(released, id, s.requests[id].(pc := Reading, retry := false)))
      else None
    case RefreshThrows(id) =>
      if id in s.requests && s.requests[id].pc.Refreshing? then Some(Abandon(s, id)) else None
    case Resume(id) =>
      if id in s.requests && s.requests[id].pc.Resolved? then
        var q := s.requests[id];
        Some(Put(s, id, q.(pc := Reading, retry := false, header := Some(q.pc.token))))
      else None
    case LoginIssues =>
      Some(s.(inflight := s.inflight + {s.issued}, issued := s.issued + 1))
    case WriteLands(token) =>
      if token in s.inflight then Some(s.(access := Some(token), inflight := s.inflight - {token})) else None
    case LogoutClears =>
      Some(s.(access := None))
  }

  /** `id` is refreshing and the write of its new access token has landed. */
  predicate StoredBy(s: State, id: Id) {
    id in s.requests && s.requests[id].pc.Refreshing? && s.requests[id].pc.phase.Storing?
    && s.requests[id].pc.phase.token !in s.inflight
  }

  /** The state after a run, or None when some event of it cannot happen. */
  function Run(s: State, events: seq<Event>): Option<State>
    decreases |events|
  {
    if events == [] then Some(s)
    else match Step(s, events[0])
      case None => None
      case Some(next) => Run(next, events[1..])
  }

  /** The call whose code an event runs. */
  function Actor(e: Event): Option<Id> {
    match e
    case LoginIssues => None
    case WriteLands(_) => None
    case LogoutClears => None
    case _ => Some(e.id)
  }

  // ---- What every step keeps ----

  /** Only a release touches the requests of other calls. */
  lemma OthersStay(s: State, e: Event, a: Id)
    requires Step(s, e).Some? && a in s.requests && Actor(e) != Some(a)
    ensures a in Step(s, e).value.requests
    ensures !(e.RefreshStored? && a in s.queue) ==> Step(s, e).value.requests[a] == s.requests[a]
  {
  }


  /** `token` has been overwritten or deleted: nothing will put it back into the store. */
  predicate Gone(s: State, token: Token) {
    token < s.issued && token !in s.inflight && s.access != Some(token)
  }

  predicate Landed(s: State, read: Option<Token>) {
    read.Some? ==> read.value < s.issued && read.value !in s.inflight
  }

  ghost predicate LockInv(s: State) {
    && (s.isRefreshing <==> s.owner.Some?)
    && (s.owner.Some? ==> s.owner.value in s.requests)
    && (forall a :: a in s.requests ==> (s.requests[a].pc.Refreshing? <==> s.owner == Some(a)))
  }

  ghost predicate QueueInv(s: State) {
    && (s.queue != [] ==> s.isRefreshing)
    && (forall i, j :: 0 <= i < j < |s.queue| ==> s.queue[i] != s.queue[j])
    && (forall a :: a in s.queue ==> At(s, a, Waiting(s.refreshes)))
    && (forall a :: a in s.requests && s.requests[a].pc.Waiting? ==>
          && s.requests[a].pc.refresh <= s.refreshes
          && (s.isRefreshing && s.requests[a].pc.refresh == s.refreshes ==> a in s.queue))
  }

  /** How many requests a call has sent, and how often it was released, at each point of its code. */
  ghost predicate ShapeInv(q: Request) {
    && (q.retry ==> q.header == None)
    && (q.retry && !q.pc.Resolved? ==> q.resolvedWith == [])
    && |q.resolvedWith| <= 1
    && (match q.pc
        case Reading => |q.sent| == if q.retry then 0 else 1
        case Loaded(_) => |q.sent| == if q.retry then 0 else 1
        case Sent => |q.sent| == if q.retry then 1 else 2
        case Waiting(_) => q.retry && |q.sent| == 1
        case Resolved(t) => q.retry && |q.sent| == 1 && q.resolvedWith == [t]
        case Refreshing(_) => q.retry && |q.sent| == 1
        case Done => |q.sent| <= if q.retry then 1 else 2)
    && (!q.retry ==> q.header == if q.resolvedWith == [] then None else Some(q.resolvedWith[0]))
  }

  /** A request that refreshed by itself never meets the token it was refused with again. */
  ghost predicate FreshInv(s: State, q: Request) {
    && (q.sent != [] ==> Landed(s, q.sent[0]))
    && (q.pc.Loaded? ==> Landed(s, q.pc.stored))
    && (q.pc.Refreshing? && q.pc.phase.Storing? ==>
          && q.pc.phase.token < s.issued
          && (q.sent != [] && q.sent[0].Some? ==>
                && q.sent[0].value != q.pc.phase.token
                && (q.pc.phase.token in s.inflight || Gone(s, q.sent[0].value))))
    && (!q.retry && q.resolvedWith == [] && q.sent != [] && q.sent[0].Some? ==>
          && Gone(s, q.sent[0].value)
          && (q.pc.Loaded? ==> q.pc.stored != q.sent[0])
          && (|q.sent| == 2 ==> q.sent[1] != q.sent[0]))
  }

  ghost predicate TokenInv(s: State) {
    && Landed(s, s.access)
    && (forall t :: t in s.inflight ==> t < s.issued)
    && (forall a :: a in s.requests ==> ShapeInv(s.requests[a]) && FreshInv(s, s.requests[a]))
  }

  ghost predicate Inv(s: State) {
    LockInv(s) && QueueInv(s) && TokenInv(s)
  }

  lemma LockKept(s: State, e: Event)
    requires LockInv(s) && QueueInv(s) && Step(s, e).Some?
    ensures LockInv(Step(s, e).value)
  {
  }

  lemma ReplyKeepsQueue(s: State, e: Event)
    requires LockInv(s) && QueueInv(s) && e.Respond? && Step(s, e).Some?
    ensures QueueInv(Step(s, e).value)
  {
    assert e.id !in s.queue;
  }

  lemma UnlockKeepsQueue(s: State, e: Event)
    requires QueueInv(s) && !e.Respond? && Step(s, e).Some? && !Step(s, e).value.isRefreshing
    ensures QueueInv(Step(s, e).value)
  {
  }

  lemma QueueKept(s: State, e: Event)
    requires LockInv(s) && QueueInv(s) && Step(s, e).Some?
    ensures QueueInv(Step(s, e).value)
  {
    if e.Respond? {
      ReplyKeepsQueue(s, e);
    } else if !Step(s, e).value.isRefreshing {
      UnlockKeepsQueue(s, e);
    }
  }

  lemma GoneStays(s: State, e: Event, token: Token)
    requires Step(s, e).Some? && Gone(s, token)
    ensures Gone(Step(s, e).value, token)
  {
  }

  lemma LandedStays(s: State, e: Event, read: Option<Token>)
    requires Step(s, e).Some? && Landed(s, read)
    ensures Landed(Step(s, e).value, read)
  {
  }

  lemma OwnStepKeepsShape(s: State, e: Event, a: Id)
    requires Step(s, e).Some? && Actor(e) == Some(a) && (a in s.requests ==> ShapeInv(s.requests[a]))
    requires a !in s.queue
    ensures a in Step(s, e).value.requests && ShapeInv(Step(s, e).value.requests[a])
  {
  }

  lemma ShapeKept(s: State, e: Event, a: Id)
    requires QueueInv(s) && TokenInv(s) && Step(s, e).Some?
    requires a in Step(s, e).value.requests
    ensures ShapeInv(Step(s, e).value.requests[a])
  {
    assert a in s.requests ==> ShapeInv(s.requests[a]);
    if Actor(e) == Some(a) {
      assert a !in s.queue;
      OwnStepKeepsShape(s, e, a);
    } else {
      OthersStay(s, e, a);
    }
  }

  /** The store moving on under a request that does not move. */
  lemma FreshFramed(s: State, e: Event, q: Request)
    requires Step(s, e).Some? && FreshInv(s, q)
    ensures FreshInv(Step(s, e).value, q)
  {
    if q.sent != [] {
      LandedStays(s, e, q.sent[0]);
      if q.sent[0].Some? && Gone(s, q.sent[0].value) {
        GoneStays(s, e, q.sent[0].value);
      }
    }
    if q.pc.Loaded? {
      LandedStays(s, e, q.pc.stored);
    }
  }

  lemma FreshKept(s: State, e: Event, a: Id)
    requires QueueInv(s) && TokenInv(s) && Step(s, e).Some?
    requires a in Step(s, e).value.requests
    ensures FreshInv(Step(s, e).value, Step(s, e).value.requests[a])
  {
    var s' := Step(s, e).value;
    if a in s.requests {
      var q, q' := s.requests[a], s'.requests[a];
      assert ShapeInv(q) && FreshInv(s, q);
      FreshFramed(s, e, q);
      if q' != q {
        FreshMoved(s, e, a);
      }
    }
  }

  lemma FreshMoved(s: State, e: Event, a: Id)
    requires QueueInv(s) && Landed(s, s.access) && (forall t :: t in s.inflight ==> t < s.issued)
    requires Step(s, e).Some? && a in s.requests && ShapeInv(s.requests[a]) && FreshInv(s, s.requests[a])
    requires FreshInv(Step(s, e).value, s.requests[a])
    requires s.requests[a] != Step(s, e).value.requests[a]
    ensures FreshInv(Step(s, e).value, Step(s, e).value.requests[a])
  {
    var q := s.requests[a];
    if e.RefreshBody? {
      assert q.sent[0].Some? ==> q.sent[0].value < s.issued;
    } else if e.RefreshStored? {
      StoredKeepsFresh(s, e.id, a);
    } else {
      OthersKeepFresh(s, e, a);
    }
  }

  lemma StoredKeepsFresh(s: State, id: Id, a: Id)
    requires QueueInv(s) && StoredBy(s, id) && a in s.requests && ShapeInv(s.requests[a]) && FreshInv(s, s.requests[a])
    ensures FreshInv(Step(s, RefreshStored(id)).value, Step(s, RefreshStored(id)).value.requests[a])
  {
    var q := s.requests[a];
    if a == id { assert q.sent[0].Some? ==> Gone(s, q.sent[0].value); }
  }

  lemma OthersKeepFresh(s: State, e: Event, a: Id)
    requires Landed(s, s.access) && Step(s, e).Some? && a in s.requests && !e.RefreshBody? && !e.RefreshStored?
    requires ShapeInv(s.requests[a]) && FreshInv(s, s.requests[a]) && FreshInv(Step(s, e).value, s.requests[a])
    requires s.requests[a] != Step(s, e).value.requests[a]
    ensures FreshInv(Step(s, e).value, Step(s, e).value.requests[a])
  {
  }

  lemma TokensKept(s: State, e: Event)
    requires QueueInv(s) && TokenInv(s) && Step(s, e).Some?
    ensures TokenInv(Step(s, e).value)
  {
    var s' := Step(s, e).value;
    forall a | a in s'.requests
      ensures ShapeInv(s'.requests[a]) && FreshInv(s', s'.requests[a])
    {
      ShapeKept(s, e, a);
      FreshKept(s, e, a);
    }
    LandedStays(s, e, s.access);
  }

  lemma StepKeepsInv(s: State, e: Event)
    requires Inv(s) && Step(s, e).Some?
    ensures Inv(Step(s, e).value)
  {
    LockKept(s, e);
    QueueKept(s, e);
    TokensKept(s, e);
  }

  lemma {:induction false} RunKeepsInv(s: State, events: seq<Event>)
    requires Inv(s) && Run(s, events).Some?
    ensures Inv(Run(s, events).value)
    decreases |events|
  {
    if events == [] {
    } else {
      StepKeepsInv(s, events[0]);
      RunKeepsInv(Step(s, events[0]).value, events[1..]);
    }
  }

  // ---- What holds in every interleaving of any number of requests ----

  lemma OneRefreshAtATime(s0: State, events: seq<Event>)
    requires Started(s0) && Run(s0, events).Some?
    ensures var s := Run(s0, events).value;
            var refreshing := set a | a in s.requests && s.requests[a].pc.Refreshing?;
            && |refreshing| == (if s.isRefreshing then 1 else 0)
            && (s.queue != [] ==> s.isRefreshing)
  {
    RunKeepsInv(s0, events);
    var s := Run(s0, events).value;
    var refreshing := set a | a in s.requests && s.requests[a].pc.Refreshing?;
    if s.isRefreshing {
      assert refreshing == {s.owner.value};
    } else {
      assert refreshing == {};
    }
  }

  lemma AtMostTwoRequestsPerCall(s0: State, events: seq<Event>, a: Id)
    requires Started(s0) && Run(s0, events).Some? && a in Run(s0, events).value.requests
    ensures |Run(s0, events).value.requests[a].sent| <= 2
    ensures |Run(s0, events).value.requests[a].resolvedWith| <= 1
  {
    RunKeepsInv(s0, events);
    assert ShapeInv(Run(s0, events).value.requests[a]);
  }

  /** A refresh that succeeds releases exactly the requests queued behind it, each once, with its token. */
  lemma ReleaseReachesEveryWaiter(s: State, id: Id, w: Id)
    requires Inv(s) && StoredBy(s, id) && w in s.requests && w != id
    ensures var token := s.requests[id].pc.phase.token;
            var s' := Step(s, RefreshStored(id)).value;
            && !s'.isRefreshing && s'.queue == []
            && (s.requests[w].pc == Waiting(s.refreshes) ==>
                  s.requests[w].resolvedWith == []
                  && s'.requests[w] == s.requests[w].(pc := Resolved(token), resolvedWith := [token]))
            && (s.requests[w].pc != Waiting(s.refreshes) ==> s'.requests[w] == s.requests[w])
  {
    assert ShapeInv(s.requests[w]);
    assert s.isRefreshing;
  }

  /** A request waiting behind a refresh that is over, whose resolver was dropped. */
  predicate LeftBehind(s: State, w: Id) {
    w in s.requests && s.requests[w].pc.Waiting?
    && (!s.isRefreshing || s.requests[w].pc.refresh != s.refreshes)
  }

  lemma LeftBehindStays(s: State, w: Id, e: Event)
    requires QueueInv(s) && LeftBehind(s, w) && Step(s, e).Some?
    ensures LeftBehind(Step(s, e).value, w)
    ensures Step(s, e).value.requests[w] == s.requests[w]
  {
    assert w !in s.queue;
  }

  lemma {:induction false} LeftBehindForever(s: State, w: Id, events: seq<Event>)
    requires Inv(s) && LeftBehind(s, w) && Run(s, events).Some?
    ensures LeftBehind(Run(s, events).value, w)
    ensures Run(s, events).value.requests[w] == s.requests[w]
    decreases |events|
  {
    if events == [] {
    } else {
      StepKeepsInv(s, events[0]);
      LeftBehindStays(s, w, events[0]);
      LeftBehindForever(Step(s, events[0]).value, w, events[1..]);
    }
  }

  /** The event ends a refresh without a token: it throws, it was refused, or there is no refresh token. */
  predicate Fails(e: Event) {
    e.RefreshThrows? || e.TokensCleared? || (e.RefreshTokenRead? && !e.found)
  }

  /** Exactly the failures leave waiters behind, and exactly those in the queue. */
  lemma OnlyFailuresLeaveBehind(s: State, e: Event, w: Id)
    requires Inv(s) && Step(s, e).Some? && !LeftBehind(s, w)
    ensures LeftBehind(Step(s, e).value, w) <==> Fails(e) && w in s.queue
  {
    if w !in s.queue {
      OutsideTheQueue(s, e, w);
    } else if Fails(e) {
      assert At(s, w, Waiting(s.refreshes)) && e.id != w;
    } else {
      InTheQueue(s, e, w);
    }
  }

  lemma OutsideTheQueue(s: State, e: Event, w: Id)
    requires QueueInv(s) && Step(s, e).Some? && !LeftBehind(s, w) && w !in s.queue
    ensures !LeftBehind(Step(s, e).value, w)
  {
    assert w in s.requests ==> !s.requests[w].pc.Waiting?;
    hide QueueInv;
    if Actor(e) != Some(w) && w in s.requests { OthersStay(s, e, w); }
  }

  lemma InTheQueue(s: State, e: Event, w: Id)
    requires LockInv(s) && QueueInv(s) && Step(s, e).Some? && w in s.queue && !Fails(e)
    ensures !LeftBehind(Step(s, e).value, w)
  {
    assert s.isRefreshing && At(s, w, Waiting(s.refreshes));
    if e.RefreshStored? {
      assert e.id != w;
    } else {
      OthersStay(s, e, w);
      assert Step(s, e).value.isRefreshing && Step(s, e).value.refreshes == s.refreshes;
    }
  }

  /** In a run without a failed refresh nobody is left behind: every waiter is queued behind the running refresh. */
  lemma {:induction false} NobodyIsLeftBehind(s: State, events: seq<Event>, w: Id)
    requires Inv(s) && Run(s, events).Some? && !LeftBehind(s, w)
    requires forall i :: 0 <= i < |events| ==> !Fails(events[i])
    ensures !LeftBehind(Run(s, events).value, w)
    decreases |events|
  {
    if events == [] {
    } else {
      hide Step, LeftBehind, Inv;
      StepKeepsInv(s, events[0]);
      OnlyFailuresLeaveBehind(s, events[0], w);
      NobodyIsLeftBehind(Step(s, events[0]).value, events[1..], w);
    }
  }

  /** The refresh in progress has been refused and is only deleting the tokens before it throws. */
  predicate Refused(s: State) {
    s.owner.Some? && At(s, s.owner.value, Refreshing(Clearing))
  }

  predicate IsResolved(s: State, w: Id) {
    w in s.requests && s.requests[w].pc.Resolved?
  }

  lemma RefusedStays(s: State, w: Id, e: Event)
    requires LockInv(s) && QueueInv(s) && Refused(s) && w in s.queue && Step(s, e).Some?
    ensures var next := Step(s, e).value;
            && w in next.requests && next.requests[w] == s.requests[w]
            && ((Refused(next) && w in next.queue) || LeftBehind(next, w))
  {
    assert s.owner != Some(w);
  }

  lemma {:induction false} RefusedNeverReleases(s: State, w: Id, events: seq<Event>)
    requires Inv(s) && Refused(s) && w in s.queue && Run(s, events).Some?
    ensures !IsResolved(Run(s, events).value, w)
    decreases |events|
  {
    if events == [] {
    } else {
      var next := Step(s, events[0]).value;
      StepKeepsInv(s, events[0]);
      RefusedStays(s, w, events[0]);
      if LeftBehind(next, w) {
        LeftBehindForever(next, w, events[1..]);
      } else {
        RefusedNeverReleases(next, w, events[1..]);
      }
    }
  }

  /** The events that take a refresh from `phase` to its end when the server and the store cooperate. */
  function Finish(s: State, id: Id, phase: Phase): seq<Event>
    decreases match phase case ReadingRefreshToken => 4 case AwaitingServer => 3 case ReadingBody => 2 case _ => 1
  {
    match phase
    case ReadingRefreshToken => [RefreshTokenRead(id, true)] + Finish(s, id, AwaitingServer)
    case AwaitingServer => [RefreshReply(id, true)] + Finish(s, id, ReadingBody)
    case ReadingBody => [RefreshBody(id), WriteLands(s.issued), RefreshStored(id)]
    case Storing(t) => if t in s.inflight then [WriteLands(t), RefreshStored(id)] else [RefreshStored(id)]
    case Clearing => []
  }

  lemma TwoSteps(s: State, first: Event, second: Event)
    requires Step(s, first).Some? && Step(Step(s, first).value, second).Some?
    ensures Run(s, [first, second]) == Step(Step(s, first).value, second)
  {
    assert [first, second][1..] == [second] && [second][1..] == [];
    assert Run(Step(s, first).value, [second]) == Step(Step(s, first).value, second);
  }

  lemma StoringReleases(s: State, id: Id, w: Id, token: Token)
    requires At(s, id, Refreshing(Storing(token))) && w != id && w in s.queue && w in s.requests
    ensures var end := Run(s, Finish(s, id, Storing(token)));
            end.Some? && IsResolved(end.value, w)
  {
    if token in s.inflight {
      assert StoredBy(Step(s, WriteLands(token)).value, id);
      TwoSteps(s, WriteLands(token), RefreshStored(id));
    } else {
      assert StoredBy(s, id);
      assert [RefreshStored(id)][1..] == [];
    }
  }

  lemma FinishReleases(s: State, id: Id, w: Id, phase: Phase)
    requires At(s, id, Refreshing(phase)) && !phase.Clearing? && w != id && w in s.queue && w in s.requests
    ensures var end := Run(s, Finish(s, id, phase));
            end.Some? && IsResolved(end.value, w)
    decreases match phase case ReadingRefreshToken => 4 case AwaitingServer => 3 case ReadingBody => 2 case _ => 1
  {
    var run := Finish(s, id, phase);
    var one := Step(s, run[0]).value;
    match phase
    case ReadingRefreshToken =>
      FinishReleases(one, id, w, AwaitingServer);
      assert run[1..] == Finish(one, id, AwaitingServer);
    case AwaitingServer =>
      FinishReleases(one, id, w, ReadingBody);
      assert run[1..] == Finish(one, id, ReadingBody);
    case ReadingBody =>
      StoringReleases(one, id, w, s.issued);
      assert run[1..] == Finish(one, id, Storing(s.issued));
    case Storing(token) =>
      StoringReleases(s, id, w, token);
  }

  /**
   When a waiter can still be released: exactly while the refresh it queued behind is running and has not been
   refused.  After a failed refresh it stays where it is in every continuation.
   */
  lemma WaiterCanBeReleased(s: State, w: Id)
    requires Inv(s) && w in s.requests && s.requests[w].pc.Waiting?
    ensures (exists events :: Run(s, events).Some? && IsResolved(Run(s, events).value, w))
       <==> (s.isRefreshing && s.requests[w].pc.refresh == s.refreshes && !Refused(s))
  {
    if LeftBehind(s, w) {
      forall events | Run(s, events).Some?
        ensures !IsResolved(Run(s, events).value, w)
      {
        LeftBehindForever(s, w, events);
      }
    } else if Refused(s) {
      forall events | Run(s, events).Some?
        ensures !IsResolved(Run(s, events).value, w)
      {
        RefusedNeverReleases(s, w, events);
      }
    } else {
      var id := s.owner.value;
      FinishReleases(s, id, w, s.requests[id].pc.phase);
    }
  }

  // ---- The retry ends: a measure that every step of a call decreases ----

  function Rank(q: Request): nat {
    match q.pc
    case Reading => if q.retry then 10 else 3
    case Loaded(_) => if q.retry then 9 else 2
    case Sent => if q.retry then 8 else 1
    case Waiting(_) => 5
    case Refreshing(ReadingRefreshToken) => 7
    case Refreshing(AwaitingServer) => 6
    case Refreshing(ReadingBody) => 5
    case Refreshing(_) => 4
    case Resolved(_) => 4
    case Done => 0
  }

  function StepsOf(events: seq<Event>, a: Id): nat {
    if events == [] then 0 else (if Actor(events[0]) == Some(a) then 1 else 0) + StepsOf(events[1..], a)
  }

  lemma OwnStepDecreasesRank(s: State, e: Event, a: Id)
    requires Step(s, e).Some? && Actor(e) == Some(a) && a in s.requests && a !in s.queue
    ensures a in Step(s, e).value.requests && Rank(Step(s, e).value.requests[a]) < Rank(s.requests[a])
  {
  }

  lemma RankDecreases(s: State, e: Event, a: Id)
    requires QueueInv(s) && Step(s, e).Some? && a in s.requests
    ensures a in Step(s, e).value.requests
    ensures Rank(Step(s, e).value.requests[a]) + (if Actor(e) == Some(a) then 1 else 0) <= Rank(s.requests[a])
  {
    if Actor(e) == Some(a) {
      assert a !in s.queue;
      OwnStepDecreasesRank(s, e, a);
    } else {
      OthersStay(s, e, a);
    }
  }

  /** A call takes at most ten steps from its first `await` to its end, whatever the others do. */
  lemma {:induction false} CallTerminates(s: State, events: seq<Event>, a: Id)
    requires Inv(s) && Run(s, events).Some? && a in s.requests
    ensures a in Run(s, events).value.requests
    ensures StepsOf(events, a) + Rank(Run(s, events).value.requests[a]) <= Rank(s.requests[a]) <= 10
    decreases |events|
  {
    if events == [] {
    } else {
      RankDecreases(s, events[0], a);
      StepKeepsInv(s, events[0]);
      CallTerminates(Step(s, events[0]).value, events[1..], a);
    }
  }

  /** How often call `a` posted to the refresh endpoint. */
  function PostsOf(events: seq<Event>, a: Id): nat {
    if events == [] then 0 else (if events[0] == RefreshTokenRead(a, true) then 1 else 0) + PostsOf(events[1..], a)
  }

  /** How often it may still do so: once, up to its own refresh, and never on a retry. */
  function PostsLeft(s: State, a: Id): nat {
    if a !in s.requests then 1
    else
      var q := s.requests[a];
      var firstTry := q.retry && (q.pc.Reading? || q.pc.Loaded? || q.pc.Sent?);
      if firstTry || q.pc == Refreshing(ReadingRefreshToken) then 1 else 0
  }

  lemma PostIsSpent(s: State, e: Event, a: Id)
    requires Step(s, e).Some?
    ensures PostsLeft(Step(s, e).value, a) + (if e == RefreshTokenRead(a, true) then 1 else 0) <= PostsLeft(s, a)
  {
  }

  /** Beside its own request, sent at most twice, a call posts to the refresh endpoint at most once. */
  lemma {:induction false} AtMostOneRefreshPerCall(s: State, events: seq<Event>, a: Id)
    requires Run(s, events).Some?
    ensures PostsOf(events, a) + PostsLeft(Run(s, events).value, a) <= PostsLeft(s, a) <= 1
    decreases |events|
  {
    if events == [] {
    } else {
      PostIsSpent(s, events[0], a);
      AtMostOneRefreshPerCall(Step(s, events[0]).value, events[1..], a);
    }
  }

  // ---- Which replies start a refresh ----

  /** A reply of 401 to a first try queues the call or starts a refresh; every other reply only ends the call. */
  lemma ReplyDecides(s: State, a: Id, status: nat)
    ensures At(s, a, Sent) && status == 401 && s.requests[a].retry ==>
              var next := Step(s, Respond(a, status)).value;
              && (s.isRefreshing ==>
                    next == s.(queue := s.queue + [a],
                               requests := s.requests[a := s.requests[a].(pc := Waiting(s.refreshes))]))
              && (!s.isRefreshing ==> next == s.(isRefreshing := true, owner := Some(a), refreshes := s.refreshes + 1,
                    requests := s.requests[a := s.requests[a].(pc := Refreshing(ReadingRefreshToken))]))
    ensures At(s, a, Sent) && !(status == 401 && s.requests[a].retry) ==>
              Step(s, Respond(a, status)) == Some(s.(requests := s.requests[a := s.requests[a].(pc := Done)]))
  {
  }

  /** Nothing but a 401 on a first try makes a call refresh or wait for a refresh. */
  lemma OnlyA401StartsARefresh(s: State, e: Event, a: Id)
    ensures Step(s, e).Some? && a in s.requests ==>
              var before, after := s.requests[a].pc, Step(s, e).value.requests[a].pc;
              (!before.Refreshing? && after.Refreshing?) || (!before.Waiting? && after.Waiting?)
              ==> e == Respond(a, 401) && before == Sent && s.requests[a].retry
  {
  }

  /** How many replies had the status 401. */
  function Refusals(events: seq<Event>): nat {
    if events == [] then 0
    else (if events[0].Respond? && events[0].status == 401 then 1 else 0) + Refusals(events[1..])
  }

  /** Over any run the refreshes started are no more than the replies of 401, so none is started without one. */
  lemma {:induction false} RefreshesFollowRefusals(s: State, events: seq<Event>)
    requires Run(s, events).Some?
    ensures s.refreshes <= Run(s, events).value.refreshes <= s.refreshes + Refusals(events)
    ensures Refusals(events) == 0 ==>
              forall a :: a in s.requests && !s.requests[a].pc.Refreshing? ==>
                a in Run(s, events).value.requests && !Run(s, events).value.requests[a].pc.Refreshing?
    decreases |events|
  {
    if events == [] {
    } else {
      RefusalStep(s, events[0]);
      hide Step;
      RefreshesFollowRefusals(Step(s, events[0]).value, events[1..]);
    }
  }

  lemma RefusalStep(s: State, e: Event)
    ensures Step(s, e).Some? ==>
              var next := Step(s, e).value;
              && s.refreshes <= next.refreshes <= s.refreshes + (if e.Respond? && e.status == 401 then 1 else 0)
              && s.requests.Keys <= next.requests.Keys
              && (!(e.Respond? && e.status == 401) ==>
                    forall a :: a in s.requests && !s.requests[a].pc.Refreshing? ==> !next.requests[a].pc.Refreshing?)
  {
  }

  // ---- Which token a retry carries ----

  /** The request that ran the refresh itself never sends the refused token again. */
  lemma OwnRetryIsFresh(s0: State, events: seq<Event>, a: Id)
    requires Started(s0) && Run(s0, events).Some? && a in Run(s0, events).value.requests
    ensures var q := Run(s0, events).value.requests[a];
            |q.sent| == 2 && q.resolvedWith == [] && q.sent[0].Some? ==> q.sent[1] != q.sent[0]
  {
    RunKeepsInv(s0, events);
    var q := Run(s0, events).value.requests[a];
    assert ShapeInv(q) && FreshInv(Run(s0, events).value, q);
    assert |q.sent| == 2 ==> !q.retry || q.pc.Done?;
  }

  /** A released waiter that cannot send `refused` any more. */
  predicate Safe(s: State, w: Id, refused: Token) {
    w in s.requests && Gone(s, refused)
    && var q := s.requests[w];
    && |q.resolvedWith| == 1 && q.resolvedWith[0] != refused
    && ((q.pc == Resolved(q.resolvedWith[0]) && |q.sent| == 1)
        || (!q.retry && q.header == Some(q.resolvedWith[0])))
    && (q.pc.Loaded? ==> q.pc.stored != Some(refused))
    && (|q.sent| == 2 ==> q.sent[1] != Some(refused))
  }

  lemma SafeStays(s: State, w: Id, refused: Token, e: Event)
    requires QueueInv(s) && Safe(s, w, refused) && ShapeInv(s.requests[w]) && Step(s, e).Some?
    ensures Safe(Step(s, e).value, w, refused)
  {
    GoneStays(s, e, refused);
    assert w !in s.queue;
  }

  lemma {:induction false} SafeForever(s: State, w: Id, refused: Token, events: seq<Event>)
    requires Inv(s) && Safe(s, w, refused) && Run(s, events).Some?
    ensures Safe(Run(s, events).value, w, refused)
    decreases |events|
  {
    if events == [] {
    } else {
      StepKeepsInv(s, events[0]);
      assert ShapeInv(s.requests[w]);
      SafeStays(s, w, refused, events[0]);
      SafeForever(Step(s, events[0]).value, w, refused, events[1..]);
    }
  }

  predicate HasSent(s: State, w: Id, auths: seq<Option<Token>>) {
    w in s.requests && s.requests[w].sent == auths
  }

  /** The continuation in which a waiter sends the refused token a second time. */
  function Repeat(s: State, w: Id, refused: Token): seq<Event> {
    (if s.access == Some(refused) then [] else [LogoutClears]) + [Resume(w), StoreRead(w), Send(w)]
  }

  lemma RepeatRuns(s: State, w: Id, token: Token, refused: Token)
    requires At(s, w, Resolved(token)) && s.requests[w].sent == [Some(refused)]
    requires token == refused || s.access == Some(refused)
    ensures Run(s, Repeat(s, w, refused)).Some?
    ensures HasSent(Run(s, Repeat(s, w, refused)).value, w, [Some(refused), Some(refused)])
  {
    if s.access == Some(refused) {
      ThreeSteps(s, w);
      assert Repeat(s, w, refused) == [Resume(w), StoreRead(w), Send(w)];
    } else {
      var run := Repeat(s, w, refused);
      assert run[0] == LogoutClears && run[1..] == [Resume(w), StoreRead(w), Send(w)];
      ThreeSteps(Step(s, LogoutClears).value, w);
    }
  }

  lemma ThreeSteps(s: State, w: Id)
    requires w in s.requests && s.requests[w].pc.Resolved?
    ensures var end := Run(s, [Resume(w), StoreRead(w), Send(w)]);
            && end.Some?
            && HasSent(end.value, w, s.requests[w].sent
                         + [if s.access.Some? then s.access else Some(s.requests[w].pc.token)])
  {
    var run := [Resume(w), StoreRead(w), Send(w)];
    var one := Step(s, run[0]).value;
    var two := Step(one, run[1]).value;
    assert run[1..] == [StoreRead(w), Send(w)] && run[1..][1..] == [Send(w)] && [Send(w)][1..] == [];
    assert Run(two, [Send(w)]) == Run(Step(two, Send(w)).value, []);
    assert Run(one, run[1..]) == Run(two, [Send(w)]);
  }

  /**
   A waiter refused with `refused` and released by refresh `id` can send `refused` again exactly when, at the
   release, the store still holds it or it is the refresh's own token.
   */
  lemma WaiterMayRepeat(s: State, id: Id, w: Id, refused: Token)
    requires Inv(s) && StoredBy(s, id) && w in s.queue && s.requests[w].sent == [Some(refused)]
    ensures (exists events :: Run(Step(s, RefreshStored(id)).value, events).Some?
                              && HasSent(Run(Step(s, RefreshStored(id)).value, events).value, w,
                                         [Some(refused), Some(refused)]))
       <==> (s.access == Some(refused) || s.requests[id].pc.phase.token == refused)
  {
    var e := RefreshStored(id);
    var s' := Step(s, e).value;
    var token := s.requests[id].pc.phase.token;
    StepKeepsInv(s, e);
    assert ShapeInv(s.requests[w]) && FreshInv(s, s.requests[w]);
    if s.access == Some(refused) || token == refused {
      RepeatRuns(s', w, token, refused);
    } else {
      assert Safe(s', w, refused);
      forall events | Run(s', events).Some?
        ensures !HasSent(Run(s', events).value, w, [Some(refused), Some(refused)])
      {
        SafeForever(s', w, refused, events);
      }
    }
  }

  lemma {:induction false} RunConcat(s: State, first: seq<Event>, second: seq<Event>)
    requires Run(s, first).Some?
    ensures Run(s, first + second) == Run(Run(s, first).value, second)
    decreases |first|
  {
    if first == [] {
      assert first + second == second;
    } else {
      assert (first + second)[1..] == first[1..] + second;
      RunConcat(Step(s, first[0]).value, first[1..], second);
    }
  }

  /** A call up to its first 401. */
  function FirstTry(id: Id): seq<Event> {
    [Begin(id), StoreRead(id)] + [Send(id), Respond(id, UNAUTHORIZED)]
  }

  lemma FirstTryRuns(s: State, id: Id) returns (end: State)
    requires id !in s.requests
    ensures Run(s, FirstTry(id)) == Some(end)
    ensures end == Put(s, id, Request(if s.isRefreshing then Waiting(s.refreshes) else Refreshing(ReadingRefreshToken),
                                      true, None, [s.access], []))
                   .(queue := if s.isRefreshing then s.queue + [id] else s.queue, isRefreshing := true,
                     owner := if s.isRefreshing then s.owner else Some(id),
                     refreshes := if s.isRefreshing then s.refreshes else s.refreshes + 1)
  {
    TwoSteps(s, Begin(id), StoreRead(id));
    RunConcat(s, [Begin(id), StoreRead(id)], [Send(id), Respond(id, UNAUTHORIZED)]);
    var mid := Put(s, id, Request(Loaded(s.access), true, None, [], []));
    assert Step(Step(s, Begin(id)).value, StoreRead(id)).value.requests == mid.requests;
    TwoSteps(mid, Send(id), Respond(id, UNAUTHORIZED));
    end := Step(Step(mid, Send(id)).value, Respond(id, UNAUTHORIZED)).value;
    assert [] + [s.access] == [s.access];
    assert end.requests[id].sent == [s.access];
    assert end.requests == s.requests[id := end.requests[id]];
  }

  /** A refresh up to the landing of its access token. */
  function Renew(id: Id, token: Token): seq<Event> {
    [RefreshTokenRead(id, true), RefreshReply(id, true)] + [RefreshBody(id), WriteLands(token)]
  }

  lemma RenewRuns(s: State, id: Id) returns (end: State)
    requires At(s, id, Refreshing(ReadingRefreshToken))
    ensures Run(s, Renew(id, s.issued)) == Some(end)
    ensures end.requests == s.requests[id := s.requests[id].(pc := Refreshing(Storing(s.issued)))]
    ensures end.access == Some(s.issued) && end.isRefreshing == s.isRefreshing && end.queue == s.queue
    ensures s.issued !in end.inflight
  {
    var first := [RefreshTokenRead(id, true), RefreshReply(id, true)];
    var second := [RefreshBody(id), WriteLands(s.issued)];
    TwoSteps(s, first[0], first[1]);
    RunConcat(s, first, second);
    var mid := Step(Step(s, first[0]).value, first[1]).value;
    TwoSteps(mid, second[0], second[1]);
    end := Step(Step(mid, second[0]).value, second[1]).value;
  }

  predicate MayRepeat(s: State, id: Id, w: Id) {
    StoredBy(s, id) && w in s.queue && HasSent(s, w, [Some(s.requests[id].pc.phase.token)])
  }

  /** Such a state is reachable: request 1 reads the new token before the refresh of request 0 has returned. */
  lemma WaiterRepeatsRefusedToken(s0: State)
    requires Started(s0)
    ensures exists events :: Run(s0, events).Some? && MayRepeat(Run(s0, events).value, 0, 1)
  {
    var s1 := FirstTryRuns(s0, 0);
    var s2 := RenewRuns(s1, 0);
    var s3 := FirstTryRuns(s2, 1);
    RunConcat(s0, FirstTry(0), Renew(0, s1.issued));
    RunConcat(s0, FirstTry(0) + Renew(0, s1.issued), FirstTry(1));
    assert MayRepeat(Run(s0, FirstTry(0) + Renew(0, s1.issued) + FirstTry(1)).value, 0, 1);
  }

  lemma FirstThrows(s: State, id: Id, w: Id)
    requires At(s, id, Refreshing(ReadingRefreshToken)) && w in s.requests && s.requests[w].pc.Waiting? && w != id
    ensures Step(s, RefreshThrows(id)).Some? && LeftBehind(Step(s, RefreshThrows(id)).value, w)
  {
  }

  /** A left-behind waiter is reachable: request 1 queues behind the refresh of request 0, which then throws. */
  lemma WaiterIsLeftBehind(s0: State)
    requires Started(s0)
    ensures exists events :: Run(s0, events).Some? && LeftBehind(Run(s0, events).value, 1)
  {
    var s1 := FirstTryRuns(s0, 0);
    var s2 := FirstTryRuns(s1, 1);
    RunConcat(s0, FirstTry(0), FirstTry(1));
    var e := RefreshThrows(0);
    assert [e][1..] == [];
    RunConcat(s0, FirstTry(0) + FirstTry(1), [e]);
    FirstThrows(s2, 0, 1);
    assert Run(s2, [e]) == Step(s2, e);
    assert LeftBehind(Run(s0, FirstTry(0) + FirstTry(1) + [e]).value, 1);
  }
}
