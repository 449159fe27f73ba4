/**
 The mobile API client's shared variables and the code that runs between two `await`s, one method for each
 stretch.  Every method is the step of the same name in TokenRefresh, and keeps the protocol's invariant.
 */
module ApiClient {
  import opened Common
  import opened TokenRefresh

  class Client {
    var isRefreshing: bool
    var refreshQueue: seq<Id>
    var access: Option<Token>
    var inflight: set<Token>
    var issued: nat
    var refreshes: nat
    var owner: Option<Id>
    var requests: map<Id, Request>

    function View(): State
      reads this
    {
      State(isRefreshing, refreshQueue, access, inflight, issued, refreshes, owner, requests)
    }

    /** The app starts with the access token an earlier session left, if any. */
    constructor (stored: Option<Token>, issued: nat)
      requires stored.Some? ==> stored.value < issued
      ensures Started(View()) && Inv(View())
    {
      isRefreshing, refreshQueue := false, [];
      access, inflight, this.issued := stored, {}, issued;
      refreshes, owner, requests := 0, None, map[];
    }

    method CallApi(id: Id)
      requires Inv(View()) && id !in requests
      modifies this
      ensures Step(old(View()), Begin(id)) == Some(View()) && Inv(View())
      ensures requests == old(requests)[id := Request(Reading, true, None, [], [])]
    {
      StepKeepsInv(View(), Begin(id));
      requests := requests[id := Request(Reading, true, None, [], [])];
    }

    method OnAccessTokenRead(id: Id)
      requires Inv(View()) && At(View(), id, Reading)
      modifies this
      ensures Step(old(View()), StoreRead(id)) == Some(View()) && Inv(View())
      ensures requests == old(requests)[id := old(requests)[id].(pc := Loaded(access))] && access == old(access)
    {
      StepKeepsInv(View(), StoreRead(id));
      requests := requests[id := requests[id].(pc := Loaded(access))];
    }

    /** The stored token, when there is one, replaces the Authorization header of the options. */
    method SendRequest(id: Id)
      requires Inv(View()) && id in requests && requests[id].pc.Loaded?
      modifies this
      ensures Step(old(View()), Send(id)) == Some(View()) && Inv(View())
      ensures var q := old(requests)[id];
              var authorization := if q.pc.stored.Some? then q.pc.stored else q.header;
              requests == old(requests)[id := q.(pc := Sent, sent := q.sent + [authorization])]
    {
      StepKeepsInv(View(), Send(id));
      var q := requests[id];
      var authorization := q.header;
      if q.pc.stored.Some? {
        authorization := q.pc.stored;
      }
      requests := requests[id := q.(pc := Sent, sent := q.sent + [authorization])];
    }

    method OnResponse(id: Id, status: nat)
      requires Inv(View()) && At(View(), id, Sent)
      modifies this
      ensures Step(old(View()), Respond(id, status)) == Some(View()) && Inv(View())
      ensures status == 401 && old(requests)[id].retry && old(isRefreshing) ==>
                && refreshQueue == old(refreshQueue) + [id] && requests[id].pc.Waiting?
                && isRefreshing && owner == old(owner) && refreshes == old(refreshes)
      ensures status == 401 && old(requests)[id].retry && !old(isRefreshing) ==>
                && isRefreshing && owner == Some(id) && requests[id].pc.Refreshing?
                && refreshQueue == old(refreshQueue) && refreshes == old(refreshes) + 1
      ensures !(status == 401 && old(requests)[id].retry) ==>
                && requests[id].pc == Done && refreshQueue == old(refreshQueue)
                && isRefreshing == old(isRefreshing) && owner == old(owner) && refreshes == old(refreshes)
      ensures requests == old(requests)[id := old(requests)[id].(pc := requests[id].pc)] && access == old(access)
    {
      StepKeepsInv(View(), Respond(id, status));
      var q := requests[id];
      if status == UNAUTHORIZED && q.retry {
        if isRefreshing {
          refreshQueue := refreshQueue + [id];
          requests := requests[id := q.(pc := Waiting(refreshes))];
          return;
        }
        isRefreshing := true;
        refreshes, owner := refreshes + 1, Some(id);
        requests := requests[id := q.(pc := Refreshing(ReadingRefreshToken))];
        return;
      }
      requests := requests[id := q.(pc := Done)];
    }

    method OnNetworkError(id: Id)
      requires Inv(View()) && At(View(), id, Sent)
      modifies this
      ensures Step(old(View()), NetworkError(id)) == Some(View()) && Inv(View())
      ensures requests == old(requests)[id := old(requests)[id].(pc := Done)] && isRefreshing == old(isRefreshing)
    {
      StepKeepsInv(View(), NetworkError(id));
      requests := requests[id := requests[id].(pc := Done)];
    }

    method OnRefreshTokenRead(id: Id, found: bool)
      requires Inv(View()) && At(View(), id, Refreshing(ReadingRefreshToken))
      modifies this
      ensures Step(old(View()), RefreshTokenRead(id, found)) == Some(View()) && Inv(View())
      ensures var next := if found then Refreshing(AwaitingServer) else Done;
              requests == old(requests)[id := old(requests)[id].(pc := next)]
      ensures isRefreshing == found && (refreshQueue == if found then old(refreshQueue) else [])
    {
      StepKeepsInv(View(), RefreshTokenRead(id, found));
      if !found {
        CatchRefreshError(id);
        return;
      }
      requests := requests[id := requests[id].(pc := Refreshing(AwaitingServer))];
    }

    method OnRefreshReply(id: Id, ok: bool)
      requires Inv(View()) && At(View(), id, Refreshing(AwaitingServer))
      modifies this
      ensures Step(old(View()), RefreshReply(id, ok)) == Some(View()) && Inv(View())
      ensures isRefreshing && refreshQueue == old(refreshQueue)
      ensures requests
              == old(requests)[id := old(requests)[id].(pc := Refreshing(if ok then ReadingBody else Clearing))]
    {
      StepKeepsInv(View(), RefreshReply(id, ok));
      var phase := Clearing;
      if ok {
        phase := ReadingBody;
      }
      requests := requests[id := requests[id].(pc := Refreshing(phase))];
    }

    method OnTokensCleared(id: Id)
      requires Inv(View()) && At(View(), id, Refreshing(Clearing))
      modifies this
      ensures Step(old(View()), TokensCleared(id)) == Some(View()) && Inv(View())
      ensures access == None && !isRefreshing && refreshQueue == []
      ensures requests == old(requests)[id := old(requests)[id].(pc := Done)]
    {
      StepKeepsInv(View(), TokensCleared(id));
      access := None;
      CatchRefreshError(id);
    }

    method OnRefreshBody(id: Id)
      requires Inv(View()) && At(View(), id, Refreshing(ReadingBody))
      modifies this
      ensures Step(old(View()), RefreshBody(id)) == Some(View()) && Inv(View())
      ensures inflight == old(inflight) + {old(issued)} && issued == old(issued) + 1 && access == old(access)
      ensures requests == old(requests)[id := old(requests)[id].(pc := Refreshing(Storing(old(issued))))]
    {
      StepKeepsInv(View(), RefreshBody(id));
      requests := requests[id := requests[id].(pc := Refreshing(Storing(issued)))];
      inflight := inflight + {issued};
      issued := issued + 1;
    }

    /** The refresh has succeeded: every queued resolver is called in turn, then the lock is given up. */
    method OnRefreshStored(id: Id)
      requires Inv(View()) && StoredBy(View(), id)
      modifies this
      ensures Step(old(View()), RefreshStored(id)) == Some(View()) && Inv(View())
      ensures !isRefreshing && refreshQueue == [] && requests.Keys == old(requests).Keys
      ensures requests[id] == old(requests)[id].(pc := Reading, retry := false)
    {
      StepKeepsInv(View(), RefreshStored(id));
      hide TokenInv, Released;
      var q := requests[id];
      ReleaseQueue(q.pc.phase.token);
      refreshQueue := [];
      isRefreshing := false;
      owner := None;
      requests := requests[id := q.(pc := Reading, retry := false)];
    }

    /** The waiter's promise is resolved with the token, once more than before. */
    static function Released(q: Request, token: Token): Request {
      q.(pc := Resolved(token), resolvedWith := q.resolvedWith + [token])
    }

    method ReleaseQueue(token: Token)
      requires forall w :: w in refreshQueue ==> w in requests
      requires forall i, j :: 0 <= i < j < |refreshQueue| ==> refreshQueue[i] != refreshQueue[j]
      modifies this`requests
      ensures requests == Release(old(requests), refreshQueue, token) && requests.Keys == old(requests).Keys
      ensures forall w :: w in requests ==>
                requests[w] == if w in refreshQueue then Released(old(requests)[w], token) else old(requests)[w]
    {
      for i := 0 to |refreshQueue|
        invariant requests == Release(old(requests), refreshQueue[..i], token)
      {
        var w := refreshQueue[i];
        requests := requests[w := requests[w].(pc := Resolved(token),
                                               resolvedWith := requests[w].resolvedWith + [token])];
        assert refreshQueue[..i + 1] == refreshQueue[..i] + [w];
      }
      assert refreshQueue[..|refreshQueue|] == refreshQueue;
    }

    method OnRefreshError(id: Id)
      requires Inv(View()) && id in requests && requests[id].pc.Refreshing?
      modifies this
      ensures Step(old(View()), RefreshThrows(id)) == Some(View()) && Inv(View())
      ensures !isRefreshing && refreshQueue == [] && access == old(access)
      ensures requests == old(requests)[id := old(requests)[id].(pc := Done)]
    {
      StepKeepsInv(View(), RefreshThrows(id));
      CatchRefreshError(id);
    }

    method CatchRefreshError(id: Id)
      requires id in requests
      modifies this`refreshQueue, this`isRefreshing, this`owner, this`requests
      ensures View() == Abandon(old(View()), id)
      ensures !isRefreshing && refreshQueue == [] && requests == old(requests)[id := old(requests)[id].(pc := Done)]
    {
      refreshQueue := [];
      isRefreshing := false;
      owner := None;
      requests := requests[id := requests[id].(pc := Done)];
    }

    /** A released waiter repeats its request once, with the new token in its options. */
    method ResumeWaiter(id: Id)
      requires Inv(View()) && IsResolved(View(), id)
      modifies this
      ensures Step(old(View()), Resume(id)) == Some(View()) && Inv(View())
      ensures var q := old(requests)[id];
              requests == old(requests)[id := q.(pc := Reading, retry := false, header := Some(q.pc.token))]
    {
      StepKeepsInv(View(), Resume(id));
      var q := requests[id];
      requests := requests[id := q.(pc := Reading, retry := false, header := Some(q.pc.token))];
    }
  }
}
