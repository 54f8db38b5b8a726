/** A batch of requests sent together: the request frames by request id, the responses that
    arrived for them, and the work queue of ids still to be sent, kept as a sorted set. */
module Batches {
  import opened Wrappers
  import opened Text
  import opened RelpCommands
  import opened Frames

  /** A non-empty set has an element. */
  lemma NonEmpty(s: set<int>)
    requires s != {}
    ensures exists x :: x in s
  {
    if forall x :: x !in s {
      assert false;
    }
  }

  lemma {:induction false} HasMinimum(s: set<int>)
    requires s != {}
    ensures exists m :: m in s && forall z :: z in s ==> m <= z
    decreases s
  {
    NonEmpty(s);
    var x :| x in s;
    var r := s - {x};
    if r == {} {
      forall z | z in s ensures x <= z {
        assert z == x || z in r;
      }
    } else {
      HasMinimum(r);
      var y :| y in r && forall z :: z in r ==> y <= z;
      var m := if x < y then x else y;
      forall z | z in s ensures m <= z {
        assert z == x || z in r;
      }
    }
  }

  /** The smallest element of a non-empty set: what `TreeSet.pollFirst` removes and the first
      key a `TreeMap.keySet()` iteration visits. */
  ghost function SetMin(s: set<int>): (m: int)
    requires s != {}
    ensures m in s && forall z :: z in s ==> m <= z
  {
    HasMinimum(s);
    var m :| m in s && forall z :: z in s ==> m <= z;
    m
  }

  /** Adding to a queue in two steps is adding the union. */
  lemma UnionAssoc(a: set<int>, b: set<int>, c: set<int>)
    ensures a + b + c == a + (b + c)
  {
  }

  /** A set has one least element. */
  lemma MinUnique(s: set<int>, m: int)
    requires m in s && forall x :: x in s ==> m <= x
    ensures m == SetMin(s)
  {
  }

  class RelpBatch {
    /** The next id the request-id generator hands out: 0, 1, 2, ... */
    var nextId: int
    var requests: map<int, RelpFrameTX>
    var responses: map<int, RelpFrameRX>
    var workQueue: set<int>

    /** Every id in the batch was handed out already. */
    ghost predicate Valid()
      reads this
    {
      0 <= nextId &&
      (forall id :: id in requests ==> 0 <= id < nextId) &&
      (forall id :: id in responses ==> 0 <= id < nextId) &&
      (forall id :: id in workQueue ==> 0 <= id < nextId)
    }

    constructor ()
      ensures Valid() && nextId == 0
      ensures requests == map[] && responses == map[] && workQueue == {}
    {
      nextId := 0;
      requests := map[];
      responses := map[];
      workQueue := {};
    }

    /** `insert(syslogMessage)`: the payload becomes a syslog request frame. */
    method Insert(syslogMessage: Option<seq<byte>>) returns (id: int)
      requires Valid() && (syslogMessage.Some? ==> |syslogMessage.value| <= MaxInt)
      modifies this
      ensures Valid() && id == old(nextId) && nextId == id + 1
      ensures id !in old(requests) && id !in old(responses) && id !in old(workQueue)
      ensures id in requests && fresh(requests[id])
      ensures requests[id].command == SYSLOG && requests[id].data == syslogMessage
      ensures requests[id].transactionNumber == 0 && requests[id].dataLength == DataLengthOf(syslogMessage)
      ensures requests == old(requests)[id := requests[id]]
      ensures responses == old(responses) && workQueue == old(workQueue) + {id}
    {
      var request := new RelpFrameTX.OfSyslog(syslogMessage);
      id := PutRequest(request);
    }

    /** `putRequest(request)`: a fresh id, stored and queued for sending. */
    method PutRequest(request: RelpFrameTX) returns (id: int)
      requires Valid()
      modifies this
      ensures Valid() && id == old(nextId) && nextId == id + 1
      ensures id !in old(requests) && id !in old(responses) && id !in old(workQueue)
      ensures requests == old(requests)[id := request]
      ensures responses == old(responses) && workQueue == old(workQueue) + {id}
    {
      id := nextId;
      nextId := nextId + 1;
      requests := requests[id := request];
      workQueue := workQueue + {id};
    }

    /** `getRequest(id)`: null (None) for an unknown id. */
    function GetRequest(id: int): (r: Option<RelpFrameTX>)
      reads this
      ensures r.Some? <==> id in requests
      ensures r.Some? ==> r.value == requests[id]
    {
      if id in requests then Some(requests[id]) else None
    }

    /** `removeRequest(id)`: off the request map and the work queue; a response stays. */
    method RemoveRequest(id: int)
      requires Valid()
      modifies this
      ensures Valid() && nextId == old(nextId)
      ensures requests == old(requests) - {id} && workQueue == old(workQueue) - {id}
      ensures responses == old(responses)
    {
      requests := requests - {id};
      workQueue := workQueue - {id};
    }

    /** `getResponse(id)`: null (None) when no response was stored. */
    function GetResponse(id: int): (r: Option<RelpFrameRX>)
      reads this
      ensures r.Some? <==> id in responses
      ensures r.Some? ==> r.value == responses[id]
    {
      if id in responses then Some(responses[id]) else None
    }

    /** `putResponse(id, response)`: stored only for a known request. */
    method PutResponse(id: int, response: RelpFrameRX)
      requires Valid()
      modifies this
      ensures Valid() && nextId == old(nextId)
      ensures id in old(requests) ==> responses == old(responses)[id := response]
      ensures id !in old(requests) ==> responses == old(responses)
      ensures requests == old(requests) && workQueue == old(workQueue)
    {
      if id in requests {
        responses := responses[id := response];
      }
    }

    method VerifyTransaction(id: int) returns (r: Outcome<bool>)
      ensures r == Verification(requests.Keys, responses, id)
    {
      if id !in requests || id !in responses {
        return Ok(false);
      }
      var code := responses[id].GetResponseCode();
      if code.Thrown? {
        return Thrown(code.ex);
      }
      return Ok(code.value == 200);
    }

    method VerifyTransactionAll() returns (r: Outcome<bool>)
      ensures r == VerifyAllOf(requests.Keys, responses, requests.Keys)
    {
      var remaining := requests.Keys;
      while remaining != {}
        invariant VerifyAllOf(requests.Keys, responses, requests.Keys) == VerifyAllOf(requests.Keys, responses, remaining)
        decreases |remaining|
      {
        ghost var least := SetMin(remaining);
        var id :| id in remaining && forall x :: x in remaining ==> id <= x;
        MinUnique(remaining, id);
        var verified := VerifyTransaction(id);
        if verified.Thrown? {
          return Thrown(verified.ex);
        }
        if !verified.value {
          return Ok(false);
        }
        remaining := remaining - {id};
      }
      return Ok(true);
    }

    /** `retryAllFailed()`: every request that does not verify goes back on the work queue;
        an exception from a response code stops the loop part-way. */
    method RetryAllFailed() returns (err: Option<Exception>)
      requires Valid()
      modifies this
      ensures Valid() && nextId == old(nextId)
      ensures requests == old(requests) && responses == old(responses)
      ensures workQueue == old(workQueue) + RetryOf(requests.Keys, responses, requests.Keys).0
      ensures err == RetryOf(requests.Keys, responses, requests.Keys).1
    {
      ghost var known := requests.Keys;
      ghost var stored := responses;
      ghost var target := RetryOf(known, stored, known);
      var remaining := requests.Keys;
      ghost var added: set<int> := {};
      while remaining != {}
        invariant Valid() && remaining <= known && requests.Keys == known
        invariant requests == old(requests) && responses == stored && nextId == old(nextId)
        invariant workQueue == old(workQueue) + added
        invariant target.0 == added + RetryOf(known, stored, remaining).0
        invariant target.1 == RetryOf(known, stored, remaining).1
        decreases |remaining|
      {
        ghost var least := SetMin(remaining);
        var id :| id in remaining && forall x :: x in remaining ==> id <= x;
        RetryTurn(known, stored, remaining, id, added, target);
        var retried;
        err, retried := RetryIfFailed(id);
        if err.Some? {
          return;
        }
        if retried {
          UnionAssoc(old(workQueue), added, {id});
          added := added + {id};
        }
        remaining := remaining - {id};
      }
      assert added + {} == added;
      return None;
    }

    /** `removeTransaction(id)`: off both maps; the id stays on the work queue if it is there. */
    method RemoveTransaction(id: int)
      requires Valid()
      modifies this
      ensures Valid() && nextId == old(nextId)
      ensures requests == old(requests) - {id} && responses == old(responses) - {id}
      ensures workQueue == old(workQueue)
    {
      responses := responses - {id};
      requests := requests - {id};
    }

    /** One turn of `retryAllFailed`, for a known request: it goes back on the work queue when
        it does not verify; an exception from its response code is returned instead. */
    method RetryIfFailed(id: int) returns (err: Option<Exception>, retried: bool)
      requires Valid() && id in requests
      modifies this
      ensures Valid() && nextId == old(nextId) && requests == old(requests) && responses == old(responses)
      ensures var v := Verification(requests.Keys, responses, id);
        err == (if v.Thrown? then Some(v.ex) else None) && (retried <==> v == Ok(false))
      ensures retried ==> workQueue == old(workQueue) + {id}
      ensures !retried ==> workQueue == old(workQueue)
    {
      var verified := VerifyTransaction(id);
      if verified.Thrown? {
        return Some(verified.ex), false;
      }
      err, retried := None, !verified.value;
      if retried {
        RetryRequest(id);
      }
    }

    /** `retryRequest(id)`: queued again only while the request is known. */
    method RetryRequest(id: int)
      modifies this
      ensures old(Valid()) ==> Valid()
      ensures nextId == old(nextId)
      ensures workQueue == if id in old(requests) then old(workQueue) + {id} else old(workQueue)
      ensures requests == old(requests) && responses == old(responses)
    {
      if id in requests {
        workQueue := workQueue + {id};
      }
    }

    function GetWorkQueueLength(): (n: nat)
      reads this
      ensures n == |workQueue|
    {
      |workQueue|
    }

    /** `popWorkQueue()`: the smallest queued id, or null (None) for an empty queue. */
    method PopWorkQueue() returns (r: Option<int>)
      requires Valid()
      modifies this
      ensures Valid() && nextId == old(nextId)
      ensures requests == old(requests) && responses == old(responses)
      ensures old(workQueue) == {} <==> r.None?
      ensures r.None? ==> workQueue == {}
      ensures r.Some? ==> r.value in old(workQueue) && (forall x :: x in old(workQueue) ==> r.value <= x)
      ensures r.Some? ==> workQueue == old(workQueue) - {r.value} && |workQueue| == |old(workQueue)| - 1
    {
      if workQueue == {} {
        return None;
      }
      ghost var least := SetMin(workQueue);
      var id :| id in workQueue && forall x :: x in workQueue ==> id <= x;
      MinUnique(workQueue, id);
      workQueue := workQueue - {id};
      return Some(id);
    }
  }

  // ---------------------------------------------------------------------------------------------
  // The verdicts, over the known request ids and the stored responses

  /** Whether `verifyTransaction(id)` holds: a known request with a stored response whose code
      is 200. Reading the code can throw, and the exception is the outcome. */
  function Verification(known: set<int>, responses: map<int, RelpFrameRX>, id: int): (r: Outcome<bool>)
    ensures r == Ok(true) <==> id in known && id in responses && ResponseCode(responses[id].data) == Ok(200)
    ensures r.Thrown? ==> id in known && id in responses && ResponseCode(responses[id].data).Thrown?
  {
    if id !in known || id !in responses then Ok(false)
    else
      match ResponseCode(responses[id].data)
      case Ok(code) => Ok(code == 200)
      case Thrown(e) => Thrown(e)
  }

  /** The loop of `verifyTransactionAll` over `ids` in ascending order: the first id that does
      not verify decides, by `false` or by its exception. */
  ghost function VerifyAllOf(known: set<int>, responses: map<int, RelpFrameRX>, ids: set<int>): Outcome<bool>
    decreases |ids|
  {
    if ids == {} then Ok(true)
    else
      var id := SetMin(ids);
      match Verification(known, responses, id)
      case Thrown(e) => Thrown(e)
      case Ok(b) => if b then VerifyAllOf(known, responses, ids - {id}) else Ok(false)
  }

  /** The loop of `retryAllFailed` over `ids` in ascending order: the ids it queues again and
      the exception that stopped it, if any. */
  ghost function RetryOf(known: set<int>, responses: map<int, RelpFrameRX>, ids: set<int>): (r: (set<int>, Option<Exception>))
    ensures r.0 <= ids
    decreases |ids|
  {
    if ids == {} then ({}, None)
    else
      var id := SetMin(ids);
      match Verification(known, responses, id)
      case Thrown(e) => ({}, Some(e))
      case Ok(b) =>
        var rest := RetryOf(known, responses, ids - {id});
        if b then rest else ({id} + rest.0, rest.1)
  }

  /** One turn of the loop of `retryAllFailed` at the least of the `ids` left, against the
      `target` outcome of the whole loop when `added` were queued so far. */
  lemma RetryTurn(known: set<int>, responses: map<int, RelpFrameRX>, ids: set<int>, id: int,
                  added: set<int>, target: (set<int>, Option<Exception>))
    requires id in ids && forall x :: x in ids ==> id <= x
    requires target.0 == added + RetryOf(known, responses, ids).0 && target.1 == RetryOf(known, responses, ids).1
    ensures |ids - {id}| < |ids|
    ensures var v := Verification(known, responses, id);
      (v.Thrown? ==> target == (added, Some(v.ex))) &&
      (v.Ok? ==>
        var added' := if v == Ok(false) then added + {id} else added;
        target.0 == added' + RetryOf(known, responses, ids - {id}).0 && target.1 == RetryOf(known, responses, ids - {id}).1)
  {
    MinUnique(ids, id);
    var v := Verification(known, responses, id);
    if v.Thrown? {
      assert added + {} == added;
    } else if v == Ok(false) {
      assert RetryOf(known, responses, ids).0 == {id} + RetryOf(known, responses, ids - {id}).0;
    }
  }

  /** `verifyTransactionAll` holds exactly when every id verifies (vacuously for none); it
      throws only when some id's response code throws. */
  lemma {:induction false} VerifyAllMeaning(known: set<int>, responses: map<int, RelpFrameRX>, ids: set<int>)
    ensures VerifyAllOf(known, responses, ids) == Ok(true) <==>
      forall id :: id in ids ==> Verification(known, responses, id) == Ok(true)
    ensures VerifyAllOf(known, responses, ids).Thrown? ==>
      exists id :: id in ids && Verification(known, responses, id).Thrown?
    decreases |ids|
  {
    if ids != {} {
      var id := SetMin(ids);
      VerifyAllMeaning(known, responses, ids - {id});
    }
  }

  /** `retryAllFailed` runs without an exception exactly when no response code throws, and
      then it queues exactly the ids that do not verify. */
  lemma {:induction false} RetryMeaning(known: set<int>, responses: map<int, RelpFrameRX>, ids: set<int>)
    ensures RetryOf(known, responses, ids).1.None? <==>
      forall id :: id in ids ==> Verification(known, responses, id).Ok?
    ensures RetryOf(known, responses, ids).1.None? ==>
      forall id :: id in ids ==> (id in RetryOf(known, responses, ids).0 <==> Verification(known, responses, id) == Ok(false))
    ensures RetryOf(known, responses, ids).1.Some? ==>
      exists id :: id in ids && Verification(known, responses, id) == Thrown(RetryOf(known, responses, ids).1.value)
    decreases |ids|
  {
    if ids != {} {
      var id := SetMin(ids);
      RetryMeaning(known, responses, ids - {id});
    }
  }
}
