/** `withIdempotency`: an operation runs once per scope, and its answer is replayed to requests with
    the same canonical text. The hash of that text is taken to be injective. */
module Idempotency {
  import opened Common
  import opened CanonicalJson
  import opened CanonicalJsonTheorems

  type Scope = string
  type Response = nat
  type Problem = nat

  datatype Record = Record(scope: Scope, fingerprint: Text, response: Response)

  /** A request; `outcome` is what the operation would answer or throw if it ran now. */
  datatype Call = Call(scope: Scope, body: Value, outcome: Result<Response, Problem>)

  datatype Reply = Answered(response: Response) | BodyMismatch | Thrown(problem: Problem)

  datatype Served = Served(records: seq<Record>, reply: Reply, ran: bool)

  function FindScope(records: seq<Record>, scope: Scope): (i: nat)
    ensures i <= |records| && (i < |records| ==> records[i].scope == scope)
    ensures forall k :: 0 <= k < i ==> records[k].scope != scope
  {
    if records == [] || records[0].scope == scope then 0 else 1 + FindScope(records[1..], scope)
  }

  function Serve(records: seq<Record>, call: Call, leq: Order): Served {
    var fingerprint := Canonical(call.body, leq);
    var i := FindScope(records, call.scope);
    if i < |records| then
      if records[i].fingerprint != fingerprint then Served(records, BodyMismatch, false)
      else Served(records, Answered(records[i].response), false)
    else
      match call.outcome
      case Success(response) => Served(records + [Record(call.scope, fingerprint, response)], Answered(response), true)
      case Failure(problem) => Served(records, Thrown(problem), true)
  }

  function ServeAll(records: seq<Record>, calls: seq<Call>, leq: Order): (served: seq<Served>)
    ensures |served| == |calls|
    decreases |calls|
  {
    if calls == [] then []
    else var first := Serve(records, calls[0], leq); [first] + ServeAll(first.records, calls[1..], leq)
  }

  /** The scope has an answer, given to a request with this body. */
  ghost predicate Settled(records: seq<Record>, scope: Scope, body: Value, response: Response, leq: Order) {
    var i := FindScope(records, scope);
    i < |records| && records[i] == Record(scope, Canonical(body, leq), response)
  }

  lemma {:induction false} FirstRecordStays(records: seq<Record>, more: seq<Record>, scope: Scope)
    requires FindScope(records, scope) < |records|
    ensures FindScope(records + more, scope) == FindScope(records, scope)
  {
    if records[0].scope != scope {
      assert (records + more)[1..] == records[1..] + more;
      FirstRecordStays(records[1..], more, scope);
    }
  }

  lemma RecordIsFound(records: seq<Record>, scope: Scope, record: Record)
    requires FindScope(records, scope) == |records| && record.scope == scope
    ensures FindScope(records + [record], scope) == |records|
  {
    var i := FindScope(records + [record], scope);
    assert (records + [record])[|records|].scope == scope;
    assert forall k :: 0 <= k < |records| ==> (records + [record])[k].scope != scope;
  }

  lemma ServeKeepsSettled(records: seq<Record>, call: Call, leq: Order, scope: Scope, body: Value, response: Response)
    requires Settled(records, scope, body, response, leq)
    ensures Settled(Serve(records, call, leq).records, scope, body, response, leq)
  {
    if call.outcome.Success? {
      FirstRecordStays(records, [Record(call.scope, Canonical(call.body, leq), call.outcome.value)], scope);
    }
  }

  lemma {:induction false} SettledForGood(records: seq<Record>, calls: seq<Call>, leq: Order, body: Value, response: Response, j: nat)
    requires j < |calls| && Settled(records, calls[j].scope, body, response, leq)
    ensures var served := ServeAll(records, calls, leq)[j];
            && !served.ran
            && served.reply == if Canonical(calls[j].body, leq) == Canonical(body, leq) then Answered(response) else BodyMismatch
    decreases j
  {
    if j > 0 {
      hide Settled, Serve;
      ServeKeepsSettled(records, calls[0], leq, calls[j].scope, body, response);
      SettledForGood(Serve(records, calls[0], leq).records, calls[1..], leq, body, response, j - 1);
    }
  }

  /** Once an operation has answered, no later call of its scope runs; each is given the same answer
      or rejected, by the canonical text of its body. */
  lemma {:induction false} NeverRunsAgain(records: seq<Record>, calls: seq<Call>, leq: Order, i: nat, j: nat)
    requires i < j < |calls| && calls[i].scope == calls[j].scope
    requires ServeAll(records, calls, leq)[i].ran && ServeAll(records, calls, leq)[i].reply.Answered?
    ensures var first, served := ServeAll(records, calls, leq)[i], ServeAll(records, calls, leq)[j];
            && !served.ran
            && served.reply == if Canonical(calls[j].body, leq) == Canonical(calls[i].body, leq) then first.reply else BodyMismatch
    decreases i
  {
    var after := Serve(records, calls[0], leq).records;
    if i == 0 {
      var response := calls[0].outcome.value;
      RecordIsFound(records, calls[0].scope, Record(calls[0].scope, Canonical(calls[0].body, leq), response));
      assert Settled(after, calls[0].scope, calls[0].body, response, leq);
      SettledForGood(after, calls[1..], leq, calls[0].body, response, j - 1);
    } else {
      hide Serve;
      NeverRunsAgain(after, calls[1..], leq, i - 1, j - 1);
    }
  }

  /** In every run, for every comparator: an operation that has answered never runs again, and a
      different JSON value is rejected. The same value is given the first answer whenever the first
      body has no tied keys. */
  lemma AnsweredOnce(records: seq<Record>, calls: seq<Call>, leq: Order, i: nat, j: nat)
    requires i < j < |calls| && calls[i].scope == calls[j].scope && IsJson(calls[i].body) && IsJson(calls[j].body)
    requires ServeAll(records, calls, leq)[i].ran && ServeAll(records, calls, leq)[i].reply.Answered?
    ensures var first, served := ServeAll(records, calls, leq)[i], ServeAll(records, calls, leq)[j];
            && !served.ran && served.reply in {first.reply, BodyMismatch}
            && (Denote(calls[j].body) != Denote(calls[i].body) ==> served.reply == BodyMismatch)
            && (TotalPreorder(leq) && NoTies(calls[i].body, leq) && Denote(calls[j].body) == Denote(calls[i].body) ==> served.reply == first.reply)
  {
    hide ServeAll, Canonical, Denote;
    NeverRunsAgain(records, calls, leq, i, j);
    if Canonical(calls[i].body, leq) == Canonical(calls[j].body, leq) {
      CanonicalIsInjective(calls[i].body, calls[j].body, leq);
    }
    if TotalPreorder(leq) && NoTies(calls[i].body, leq) {
      CanonicalAgreesExactly(calls[i].body, calls[j].body, leq);
    }
  }

  /** A first body with tied keys has a rewriting that means the same and is rejected. */
  lemma TiedBodyIsRejected(scope: Scope, body: Value, response: Response, leq: Order) returns (other: Value)
    requires IsJson(body) && !NoTies(body, leq)
    ensures IsJson(other) && Denote(other) == Denote(body)
    ensures var calls := [Call(scope, body, Success(response)), Call(scope, other, Success(response))];
            ServeAll([], calls, leq)[0].reply == Answered(response) && ServeAll([], calls, leq)[1].reply == BodyMismatch
  {
    other := TiesHaveReordering(body, leq);
    NormalisedApartPrintApart(body, other, leq);
    hide Canonical, Normal, Denote, IsJson;
    var calls := [Call(scope, body, Success(response)), Call(scope, other, Success(response))];
    var record := Record(scope, Canonical(body, leq), response);
    assert [] + [record] == [record];
    assert Serve([], calls[0], leq) == Served([record], Answered(response), true);
    assert FindScope([record], scope) == 0;
    assert Serve([record], calls[1], leq) == Served([record], BodyMismatch, false);
    assert calls[1..] == [calls[1]];
  }

  /** `state.idempotency`, appended to in place. */
  class IdempotencyTable {
    var records: seq<Record>
    const leq: Order

    constructor (order: Order)
      ensures records == [] && leq == order
    {
      records := [];
      leq := order;
    }

    method Find(scope: Scope) returns (i: nat)
      ensures i == FindScope(records, scope)
    {
      i := 0;
      while i < |records| && records[i].scope != scope
        invariant i <= |records| && FindScope(records, scope) == i + FindScope(records[i..], scope)
      {
        assert records[i..][1..] == records[i + 1..];
        i := i + 1;
      }
    }

    method WithIdempotency(call: Call) returns (reply: Reply, ran: bool)
      modifies this
      ensures Served(records, reply, ran) == Serve(old(records), call, leq)
    {
      var fingerprint := Canonical(call.body, leq);
      var i := Find(call.scope);
      if i < |records| {
        if records[i].fingerprint != fingerprint {
          return BodyMismatch, false;
        }
        return Answered(records[i].response), false;
      }
      match call.outcome
      case Failure(problem) => return Thrown(problem), true;
      case Success(response) =>
        records := records + [Record(call.scope, fingerprint, response)];
        return Answered(response), true;
    }
  }
}
