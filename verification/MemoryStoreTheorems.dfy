/** Transactions are serialised in the order of their calls, under every interleaving. */
module MemoryStoreTheorems {
  import opened Common
  import opened MemoryStore
  import Sessions

  ghost predicate PhaseOk<S>(initial: S, queue: seq<Transaction<S>>, finished: nat, k: nat)
    requires k < |queue|
  {
    var before := Serial(initial, Operations(queue)[..k]);
    match queue[k].phase
    case Finished(committed) => k < finished && committed == Apply(queue[k].operation, before).Some?
    case Running(working, done) => k == finished && done <= |queue[k].operation| && Apply(queue[k].operation[..done], before) == Some(working)
    case Waiting => k >= finished
  }

  /** The first `finished` transactions have ended, and only the next one may be running. */
  ghost predicate Serialised<S>(initial: S, store: Store<S>, finished: nat) {
    && finished <= |store.queue|
    && store.state == Serial(initial, Operations(store.queue)[..finished])
    && forall k :: 0 <= k < |store.queue| ==> PhaseOk(initial, store.queue, finished, k)
  }

  lemma InvokeKeeps<S>(initial: S, store: Store<S>, finished: nat, operation: Operation<S>)
    requires Serialised(initial, store, finished)
    ensures Serialised(initial, Next(store, Invoke(operation)), finished)
  {
    var queue' := Next(store, Invoke(operation)).queue;
    forall k | 0 <= k <= |store.queue| ensures Operations(queue')[..k] == Operations(store.queue)[..k] {
    }
    forall k | 0 <= k < |queue'| ensures PhaseOk(initial, queue', finished, k) {
      assert k < |store.queue| ==> PhaseOk(initial, store.queue, finished, k);
    }
  }

  /** Only the first unfinished transaction can resume. */
  lemma OnlyFirstResumes<S>(initial: S, store: Store<S>, finished: nat, k: nat)
    requires Serialised(initial, store, finished)
    ensures CanResume(store, k) <==> k == finished && k < |store.queue|
  {
    if k < |store.queue| {
      assert PhaseOk(initial, store.queue, finished, k);
    }
    if 0 < k <= |store.queue| {
      assert PhaseOk(initial, store.queue, finished, k - 1);
    }
  }

  lemma PhaseChangeKeeps<S>(initial: S, store: Store<S>, finished: nat, phase: Phase<S>, state': S, finished': nat)
    requires Serialised(initial, store, finished) && finished < |store.queue| && finished <= finished' <= finished + 1
    requires finished' == finished + 1 <==> phase.Finished?
    requires state' == Serial(initial, Operations(store.queue)[..finished'])
    requires PhaseOk(initial, SetPhase(store, finished, phase).queue, finished', finished)
    ensures Serialised(initial, SetPhase(store, finished, phase).(state := state'), finished')
  {
    var queue' := SetPhase(store, finished, phase).queue;
    assert Operations(queue') == Operations(store.queue);
    forall k | 0 <= k < |queue'| ensures PhaseOk(initial, queue', finished', k) {
      assert PhaseOk(initial, store.queue, finished, k);
    }
  }

  lemma ResumeKeeps<S>(initial: S, store: Store<S>, finished: nat) returns (finished': nat)
    requires Serialised(initial, store, finished) && CanResume(store, finished)
    ensures Serialised(initial, Resumed(store, finished), finished')
    ensures finished' == finished + (if Resumed(store, finished).queue[finished].phase.Finished? then 1 else 0)
  {
    var t := store.queue[finished];
    var operations := Operations(store.queue);
    var before := Serial(initial, operations[..finished]);
    var phase' := Resumed(store, finished).queue[finished].phase;
    var queue' := SetPhase(store, finished, phase').queue;
    finished' := finished + if phase'.Finished? then 1 else 0;
    assert PhaseOk(initial, store.queue, finished, finished);
    assert Operations(queue') == operations;
    assert operations[..finished + 1][..finished] == operations[..finished];
    if t.phase.Running? {
      var done := t.phase.done;
      if done < |t.operation| {
        assert t.operation[..done + 1][..done] == t.operation[..done];
        if phase'.Finished? {
          ThrowsBefore(t.operation, done + 1, before);
        }
      } else {
        assert t.operation[..done] == t.operation;
      }
    }
    PhaseChangeKeeps(initial, store, finished, phase', Resumed(store, finished).state, finished');
  }

  /** An operation that throws in its first stretches throws as a whole. */
  lemma {:induction false} ThrowsBefore<S>(operation: Operation<S>, n: nat, s: S)
    requires n <= |operation| && Apply(operation[..n], s).None?
    ensures Apply(operation, s).None?
    decreases |operation|
  {
    if n == |operation| {
      assert operation[..n] == operation;
    } else {
      var last := |operation| - 1;
      assert operation[..last][..n] == operation[..n];
      ThrowsBefore(operation[..last], n, s);
    }
  }

  lemma {:induction false} RunKeeps<S>(initial: S, store: Store<S>, finished: nat, events: seq<Event<S>>) returns (finished': nat)
    requires Serialised(initial, store, finished)
    ensures Serialised(initial, Run(store, events), finished')
    decreases |events|
  {
    hide Serialised, Resumed;
    finished' := finished;
    if events != [] {
      match events[0] {
        case Invoke(operation) => InvokeKeeps(initial, store, finished, operation);
        case Resume(k) =>
          OnlyFirstResumes(initial, store, finished, k);
          if CanResume(store, k) {
            finished' := ResumeKeeps(initial, store, finished);
          }
      }
      finished' := RunKeeps(initial, Next(store, events[0]), finished', events[1..]);
    }
  }

  lemma SerialisedPhases<S>(initial: S, store: Store<S>, finished: nat)
    requires Serialised(initial, store, finished)
    ensures forall k :: 0 <= k < |store.queue| ==> (store.queue[k].phase.Finished? <==> k < finished)
    ensures forall k :: 0 <= k < |store.queue| && store.queue[k].phase.Running? ==> k == finished
    ensures forall k :: 0 <= k < finished ==>
              store.queue[k].phase.committed == Apply(store.queue[k].operation, Serial(initial, Operations(store.queue)[..k])).Some?
  {
    forall k | 0 <= k < |store.queue|
      ensures store.queue[k].phase.Finished? <==> k < finished
      ensures store.queue[k].phase.Running? ==> k == finished
      ensures k < finished ==>
                store.queue[k].phase.committed == Apply(store.queue[k].operation, Serial(initial, Operations(store.queue)[..k])).Some?
    {
      assert PhaseOk(initial, store.queue, finished, k);
    }
  }

  /** Under every interleaving the committed state is the serial run, in the order of the calls,
      of the transactions that have ended; each of them committed exactly when its operation
      succeeds on what the earlier ones left, and no two ever run at once. */
  lemma SerialisedInCallOrder<S>(initial: S, events: seq<Event<S>>) returns (finished: nat)
    ensures var store := Run(Store(initial, []), events);
            && finished <= |store.queue|
            && store.state == Serial(initial, Operations(store.queue)[..finished])
            && (forall k :: 0 <= k < |store.queue| ==> (store.queue[k].phase.Finished? <==> k < finished))
            && (forall k :: 0 <= k < |store.queue| && store.queue[k].phase.Running? ==> k == finished)
            && (forall k :: 0 <= k < finished ==> store.queue[k].phase.committed == Apply(store.queue[k].operation, Serial(initial, Operations(store.queue)[..k])).Some?)
  {
    assert Serialised(initial, Store(initial, []), 0);
    finished := RunKeeps(initial, Store(initial, []), 0, events);
    SerialisedPhases(initial, Run(Store(initial, []), events), finished);
  }

  // ---- Every call ends -------------------------------------------------------------------------

  function Remaining<S>(t: Transaction<S>): int {
    match t.phase
    case Waiting => |t.operation| + 2
    case Running(_, done) => |t.operation| + 1 - done
    case Finished(_) => 0
  }

  function Work<S>(queue: seq<Transaction<S>>): int {
    SumBy(queue, t => Remaining(t))
  }

  /** While a call is unfinished exactly one transaction can resume, and resuming it brings the
      end nearer: the queue never deadlocks and, without new calls, drains. */
  lemma QueueDrains<S>(initial: S, store: Store<S>, finished: nat)
    requires Serialised(initial, store, finished) && finished < |store.queue|
    ensures CanResume(store, finished)
    ensures 0 <= Work(Resumed(store, finished).queue) < Work(store.queue)
  {
    OnlyFirstResumes(initial, store, finished, finished);
    assert PhaseOk(initial, store.queue, finished, finished);
    var queue' := Resumed(store, finished).queue;
    var finished' := ResumeKeeps(initial, store, finished);
    forall k | 0 <= k < |queue'| ensures Remaining(queue'[k]) >= 0 {
      assert PhaseOk(initial, queue', finished', k);
    }
    SumNonNegative(queue', t => Remaining(t));
    SumUpdate(store.queue, finished, queue'[finished], t => Remaining(t));
  }

  // ---- A replayed refresh keeps its revocation ---------------------------------------------------

  /** A session request inside a transaction: AUTH_REQUIRED throws; `refresh` answers a replay by
      returning null, so that one commits. */
  function SessionOperation(r: Sessions.Request): Operation<seq<Sessions.Session>> {
    [(sessions: seq<Sessions.Session>) =>
       var reply := Sessions.TsStep(sessions, r);
       if reply.answer.AuthRequired? then None else Some(reply.state)]
  }

  function SessionOperations(requests: seq<Sessions.Request>): (operations: seq<Operation<seq<Sessions.Session>>>)
    ensures |operations| == |requests|
    decreases |requests|
  {
    if requests == [] then []
    else var last := |requests| - 1; SessionOperations(requests[..last]) + [SessionOperation(requests[last])]
  }

  lemma {:induction false} SessionOperationsPrefix(requests: seq<Sessions.Request>, k: nat)
    requires k <= |requests|
    ensures SessionOperations(requests)[..k] == SessionOperations(requests[..k])
    decreases |requests|
  {
    if k == |requests| {
      assert requests[..k] == requests;
    } else {
      var last := |requests| - 1;
      assert requests[..last][..k] == requests[..k];
      SessionOperationsPrefix(requests[..last], k);
    }
  }

  function AfterRequest(sessions: seq<Sessions.Session>, r: Sessions.Request): seq<Sessions.Session> {
    Sessions.TsStep(sessions, r).state
  }

  /** The requests one after the other, without any store. */
  function AfterRequests(initial: seq<Sessions.Session>, requests: seq<Sessions.Request>): seq<Sessions.Session>
    decreases |requests|
  {
    if requests == [] then initial
    else var last := |requests| - 1; AfterRequest(AfterRequests(initial, requests[..last]), requests[last])
  }

  lemma RefusedChangesNothing(sessions: seq<Sessions.Session>, r: Sessions.Request)
    ensures Sessions.TsStep(sessions, r).answer.AuthRequired? ==> Sessions.TsStep(sessions, r).state == sessions
  {
  }

  /** What a session operation does on its own; a refused one changes nothing. */
  lemma SessionOperationAlone(sessions: seq<Sessions.Session>, r: Sessions.Request)
    ensures Apply(SessionOperation(r), sessions).None? ==> AfterRequest(sessions, r) == sessions
    ensures Apply(SessionOperation(r), sessions).Some? ==> Apply(SessionOperation(r), sessions).value == AfterRequest(sessions, r)
  {
    RefusedChangesNothing(sessions, r);
    hide Sessions.TsStep;
    var operation := SessionOperation(r);
    assert operation[..0] == [] && Apply(operation[..0], sessions) == Some(sessions);
  }

  lemma SerialLast<S>(s: S, front: seq<Operation<S>>, operation: Operation<S>)
    ensures Serial(s, front + [operation])
            == var before := Serial(s, front); if Apply(operation, before).Some? then Apply(operation, before).value else before
  {
    assert (front + [operation])[..|front|] == front;
  }

  /** The serial run of session requests is the fold of their steps. */
  lemma {:induction false} SerialSessions(initial: seq<Sessions.Session>, requests: seq<Sessions.Request>)
    ensures Serial(initial, SessionOperations(requests)) == AfterRequests(initial, requests)
    decreases |requests|
  {
    if requests != [] {
      hide AfterRequest, SessionOperation, Serial, Apply;
      var last := |requests| - 1;
      SerialSessions(initial, requests[..last]);
      SerialLast(initial, SessionOperations(requests[..last]), SessionOperation(requests[last]));
      SessionOperationAlone(AfterRequests(initial, requests[..last]), requests[last]);
    }
  }

  /** No session request brings a revoked session back. */
  lemma RevokedStays(sessions: seq<Sessions.Session>, r: Sessions.Request, i: nat)
    requires i < |sessions| && sessions[i].revoked
    ensures i < |AfterRequest(sessions, r)| && AfterRequest(sessions, r)[i].revoked
  {
  }

  lemma ReplayRevokes(sessions: seq<Sessions.Session>, r: Sessions.Request, i: nat)
    requires r.Refresh? && Sessions.FindPrevious(sessions, r.token, 0) == Some(i)
    ensures i < |AfterRequest(sessions, r)| && AfterRequest(sessions, r)[i].revoked
  {
  }

  lemma {:induction false} RevokedForGood(initial: seq<Sessions.Session>, requests: seq<Sessions.Request>, k: nat, i: nat)
    requires k < |requests| && requests[k].Refresh?
    requires Sessions.FindPrevious(AfterRequests(initial, requests[..k]), requests[k].token, 0) == Some(i)
    ensures i < |AfterRequests(initial, requests)| && AfterRequests(initial, requests)[i].revoked
    decreases |requests|
  {
    hide AfterRequest;
    var last := |requests| - 1;
    if k == last {
      ReplayRevokes(AfterRequests(initial, requests[..last]), requests[last], i);
    } else {
      assert requests[..last][..k] == requests[..k];
      RevokedForGood(initial, requests[..last], k, i);
      RevokedStays(AfterRequests(initial, requests[..last]), requests[last], i);
    }
  }

  /** A store that serves session requests holds the fold of those that have ended. */
  lemma CommittedIsFold(initial: seq<Sessions.Session>, events: seq<Event<seq<Sessions.Session>>>, requests: seq<Sessions.Request>)
    returns (finished: nat)
    requires Operations(Run(Store(initial, []), events).queue) == SessionOperations(requests)
    ensures finished <= |requests| && Run(Store(initial, []), events).state == AfterRequests(initial, requests[..finished])
    ensures forall k :: 0 <= k < |requests| ==> (Run(Store(initial, []), events).queue[k].phase.Finished? <==> k < finished)
  {
    hide Serial, SessionOperations, AfterRequests, Run, Apply;
    finished := SerialisedInCallOrder(initial, events);
    SessionOperationsPrefix(requests, finished);
    SerialSessions(initial, requests[..finished]);
  }

  /** In every run of a store that serves session requests: once a refresh of a replayed token has
      ended, the family it found is revoked in the committed state, and stays so. */
  lemma ReplayIsCommitted(initial: seq<Sessions.Session>, events: seq<Event<seq<Sessions.Session>>>,
                          requests: seq<Sessions.Request>, k: nat, i: nat)
    requires Operations(Run(Store(initial, []), events).queue) == SessionOperations(requests)
    requires k < |requests| && Run(Store(initial, []), events).queue[k].phase.Finished? && requests[k].Refresh?
    requires Sessions.FindPrevious(AfterRequests(initial, requests[..k]), requests[k].token, 0) == Some(i)
    ensures var state := Run(Store(initial, []), events).state; i < |state| && state[i].revoked
  {
    hide AfterRequests, Run, SessionOperations;
    var finished := CommittedIsFold(initial, events, requests);
    var ended := requests[..finished];
    assert ended[..k] == requests[..k] && ended[k] == requests[k];
    RevokedForGood(initial, ended, k, i);
  }
}
