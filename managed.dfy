/** `ManagedRelpConnection`: a connection that keeps reconnecting until the server accepts,
    and keeps committing a batch until every request in it is acknowledged with code 200.
    It works over any `IRelpConnection`; here that is a connection whose outcomes follow a
    script fixed when it is made, and which logs every call the managed layer makes on it. */
module ManagedConnections {
  import opened Wrappers
  import opened Text
  import opened RelpCommands
  import opened Frames
  import opened Batches

  /** The calls the managed layer makes on the connection it wraps. */
  datatype Call = ConnectCall | TearDownCall | DisconnectCall | CommitCall

  /** What one commit does: the response frames the peer sends for queued requests (by request
      id), and the exception the commit ends with, if any. */
  datatype CommitScript = CommitScript(answers: map<int, RelpFrameRX>, thrown: Option<Exception>)

  /** The outcome of the coming `connect` or `disconnect`; once the script is used up, both
      return true. */
  function NextOutcome(script: seq<Outcome<bool>>): Outcome<bool> {
    if script == [] then Ok(true) else script[0]
  }

  function Rest<T>(script: seq<T>): (r: seq<T>)
    ensures |r| == if script == [] then 0 else |script| - 1
  {
    if script == [] then [] else script[1..]
  }

  /** The outcome of the `k`-th coming call, counting from 0. */
  function OutcomeAt(script: seq<Outcome<bool>>, k: nat): Outcome<bool> {
    if k < |script| then script[k] else Ok(true)
  }

  function NextCommit(script: seq<CommitScript>): CommitScript {
    if script == [] then CommitScript(map[], None) else script[0]
  }

  /** The responses a commit stores: one for every queued, known request the peer answers. */
  function Answered(answers: map<int, RelpFrameRX>, queue: set<int>, requests: map<int, RelpFrameTX>): (m: map<int, RelpFrameRX>)
    ensures forall id :: id in m <==> id in answers && id in queue && id in requests
    ensures forall id :: id in m ==> m[id] == answers[id]
  {
    map id | id in answers && id in queue && id in requests :: answers[id]
  }

  lemma AnsweredStep(stored: map<int, RelpFrameRX>, answers: map<int, RelpFrameRX>, done: set<int>, requests: map<int, RelpFrameTX>, id: int)
    ensures stored + Answered(answers, done + {id}, requests) ==
      if id in answers && id in requests then (stored + Answered(answers, done, requests))[id := answers[id]]
      else stored + Answered(answers, done, requests)
  {
  }

  /** `n` copies of a call. */
  function Repeat(c: Call, n: nat): (r: seq<Call>)
    ensures |r| == n && forall i :: 0 <= i < n ==> r[i] == c
  {
    if n == 0 then [] else [c] + Repeat(c, n - 1)
  }

  /** An `IRelpConnection` whose outcomes are scripted. */
  class ScriptedRelpConnection {
    /** The results of the coming `connect` calls. */
    var connects: seq<Outcome<bool>>
    /** The results of the coming `disconnect` calls. */
    var disconnects: seq<Outcome<bool>>
    /** What the coming `commit` calls do. */
    var commits: seq<CommitScript>
    /** Whether `connect` was ever called: before that there is no socket, and `tearDown`
        throws NullPointerException. */
    var everConnected: bool
    /** Every call made, in order. */
    var calls: seq<Call>

    constructor (connects: seq<Outcome<bool>>, disconnects: seq<Outcome<bool>>, commits: seq<CommitScript>)
      ensures this.connects == connects && this.disconnects == disconnects && this.commits == commits
      ensures !everConnected && calls == []
    {
      this.connects := connects;
      this.disconnects := disconnects;
      this.commits := commits;
      everConnected := false;
      calls := [];
    }

    method Connect() returns (r: Outcome<bool>)
      modifies this
      ensures r == NextOutcome(old(connects)) && connects == Rest(old(connects))
      ensures everConnected && calls == old(calls) + [ConnectCall]
      ensures disconnects == old(disconnects) && commits == old(commits)
    {
      r := NextOutcome(connects);
      connects := Rest(connects);
      everConnected := true;
      calls := calls + [ConnectCall];
    }

    method TearDown() returns (err: Option<Exception>)
      modifies this
      ensures err == if everConnected then None else Some(NullPointer)
      ensures calls == old(calls) + [TearDownCall]
      ensures connects == old(connects) && disconnects == old(disconnects) && commits == old(commits)
      ensures everConnected == old(everConnected)
    {
      err := if everConnected then None else Some(NullPointer);
      calls := calls + [TearDownCall];
    }

    method Disconnect() returns (r: Outcome<bool>)
      modifies this
      ensures r == NextOutcome(old(disconnects)) && disconnects == Rest(old(disconnects))
      ensures calls == old(calls) + [DisconnectCall]
      ensures connects == old(connects) && commits == old(commits) && everConnected == old(everConnected)
    {
      r := NextOutcome(disconnects);
      disconnects := Rest(disconnects);
      calls := calls + [DisconnectCall];
    }

    /** `commit(batch)`: the work queue is drained, each queued request the peer answers gets
        its response, and the scripted exception, if any, ends the call. */
    method Commit(batch: RelpBatch) returns (err: Option<Exception>)
      requires batch.Valid()
      modifies this, batch
      ensures batch.Valid() && batch.nextId == old(batch.nextId) && batch.requests == old(batch.requests)
      ensures batch.workQueue == {}
      ensures batch.responses == old(batch.responses) + Answered(NextCommit(old(commits)).answers, old(batch.workQueue), batch.requests)
      ensures err == NextCommit(old(commits)).thrown && commits == Rest(old(commits))
      ensures calls == old(calls) + [CommitCall]
      ensures connects == old(connects) && disconnects == old(disconnects) && everConnected == old(everConnected)
    {
      var script := NextCommit(commits);
      StoreAnswers(batch, script.answers);
      commits := Rest(commits);
      calls := calls + [CommitCall];
      err := script.thrown;
    }
  }

  /** The drain of a scripted commit: each queued request in turn leaves the queue and gets
      the peer's answer for it, if there is one. */
  method StoreAnswers(batch: RelpBatch, answers: map<int, RelpFrameRX>)
    requires batch.Valid()
    modifies batch
    ensures batch.Valid() && batch.nextId == old(batch.nextId) && batch.requests == old(batch.requests)
    ensures batch.workQueue == {}
    ensures batch.responses == old(batch.responses) + Answered(answers, old(batch.workQueue), batch.requests)
  {
    ghost var queue0 := batch.workQueue;
    ghost var responses0 := batch.responses;
    while batch.workQueue != {}
      invariant batch.Valid() && batch.nextId == old(batch.nextId) && batch.requests == old(batch.requests)
      invariant batch.workQueue <= queue0
      invariant batch.responses == responses0 + Answered(answers, queue0 - batch.workQueue, batch.requests)
      decreases |batch.workQueue|
    {
      ghost var queue := batch.workQueue;
      var popped := batch.PopWorkQueue();
      var id := popped.value;
      if id in answers {
        batch.PutResponse(id, answers[id]);
      }
      assert queue0 - batch.workQueue == (queue0 - queue) + {id};
      AnsweredStep(responses0, answers, queue0 - queue, batch.requests, id);
    }
    assert queue0 - batch.workQueue == queue0;
  }

  /** How many `connect` calls the retry loop makes with `fuel` attempts allowed: up to and
      including the first that returns true. */
  function Attempts(script: seq<Outcome<bool>>, fuel: nat): (n: nat)
    ensures n <= fuel
    decreases fuel
  {
    if fuel == 0 then 0
    else if NextOutcome(script) == Ok(true) then 1
    else 1 + Attempts(Rest(script), fuel - 1)
  }

  /** Whether one of those attempts returned true. */
  function Connects(script: seq<Outcome<bool>>, fuel: nat): bool
    decreases fuel
  {
    fuel > 0 && (NextOutcome(script) == Ok(true) || Connects(Rest(script), fuel - 1))
  }

  /** What is left of a script after `n` calls. */
  function Drop<T>(script: seq<T>, n: nat): seq<T> {
    if n <= |script| then script[n..] else []
  }

  lemma RestAt(script: seq<Outcome<bool>>, k: nat)
    ensures OutcomeAt(Rest(script), k) == OutcomeAt(script, k + 1)
    ensures NextOutcome(script) == OutcomeAt(script, 0)
  {
  }

  /** The loop connects within `fuel` attempts exactly when one of the first `fuel` scripted
      outcomes is true; it stops at the first one, every earlier attempt having failed. */
  lemma {:induction false} AttemptsMeaning(script: seq<Outcome<bool>>, fuel: nat)
    ensures Connects(script, fuel) <==> exists k :: 0 <= k < fuel && OutcomeAt(script, k) == Ok(true)
    ensures forall k :: 0 <= k < Attempts(script, fuel) - 1 ==> OutcomeAt(script, k) != Ok(true)
    ensures Connects(script, fuel) ==> OutcomeAt(script, Attempts(script, fuel) - 1) == Ok(true)
    ensures !Connects(script, fuel) ==> Attempts(script, fuel) == fuel
    decreases fuel
  {
    RestAt(script, 0);
    if fuel > 0 && NextOutcome(script) != Ok(true) {
      AttemptsMeaning(Rest(script), fuel - 1);
      forall k | 0 <= k < Attempts(script, fuel) - 1 ensures OutcomeAt(script, k) != Ok(true) {
        if k > 0 {
          RestAt(script, k - 1);
        }
      }
      if Connects(script, fuel) {
        RestAt(script, Attempts(script, fuel) - 2);
      }
      if exists k :: 0 <= k < fuel && OutcomeAt(script, k) == Ok(true) {
        var k :| 0 <= k < fuel && OutcomeAt(script, k) == Ok(true);
        RestAt(script, k - 1);
      }
      if Connects(Rest(script), fuel - 1) {
        var k :| 0 <= k < fuel - 1 && OutcomeAt(Rest(script), k) == Ok(true);
        RestAt(script, k);
      }
    }
  }

  /** A server whose refusals are all in the script is reached once the attempts outnumber
      the refusals. */
  lemma EnoughAttemptsConnect(script: seq<Outcome<bool>>, fuel: nat)
    requires fuel > |script|
    ensures Connects(script, fuel)
  {
    AttemptsMeaning(script, fuel);
    assert OutcomeAt(script, |script|) == Ok(true);
  }

  /** The exceptions that reading response codes can throw are IllegalArgumentExceptions. */
  lemma {:induction false} VerifyAllThrowsIllegalArgument(known: set<int>, responses: map<int, RelpFrameRX>, ids: set<int>)
    ensures VerifyAllOf(known, responses, ids).Thrown? ==> VerifyAllOf(known, responses, ids).ex.IllegalArgument?
    decreases |ids|
  {
    if ids != {} {
      var id := SetMin(ids);
      if id in known && id in responses {
        ResponseCodeValue(responses[id].data);
      }
      VerifyAllThrowsIllegalArgument(known, responses, ids - {id});
    }
  }

  lemma RetryThrowsIllegalArgument(known: set<int>, responses: map<int, RelpFrameRX>, ids: set<int>)
    ensures RetryOf(known, responses, ids).1.Some? ==> RetryOf(known, responses, ids).1.value.IllegalArgument?
  {
    RetryMeaning(known, responses, ids);
    if RetryOf(known, responses, ids).1.Some? {
      var id :| id in ids && Verification(known, responses, id) == Thrown(RetryOf(known, responses, ids).1.value);
      ResponseCodeValue(responses[id].data);
    }
  }

  /** How one turn of the `ensureSent(batch)` loop ends: an exception escapes (leaving the work
      queue as given), every request verifies, or the failed requests are queued again and the
      connection is torn down and made again. */
  datatype RoundEnd = Escaped(ex: Exception, queue: set<int>) | Delivered | Failed(requeued: set<int>)

  /** What a turn of the loop reads and changes: the batch's responses and work queue, and the
      wrapped connection's scripts and call log. */
  datatype Progress = Progress(responses: map<int, RelpFrameRX>, queue: set<int>,
                               commits: seq<CommitScript>, connects: seq<Outcome<bool>>, calls: seq<Call>)

  /** How a turn ends once the commit has stored its responses and ended with `thrown`: a
      commit exception outside IllegalState, I/O and timeout escapes; otherwise
      `verifyTransactionAll` decides, and on `false` `retryAllFailed` queues the failures. */
  ghost function RoundEndOf(known: set<int>, stored: map<int, RelpFrameRX>, thrown: Option<Exception>): RoundEnd {
    if thrown.Some? && !thrown.value.IsStateIoOrTimeout() then Escaped(thrown.value, {})
    else
      match VerifyAllOf(known, stored, known)
      case Thrown(e) => Escaped(e, {})
      case Ok(verified) =>
        if verified then Delivered
        else
          var retried := RetryOf(known, stored, known);
          if retried.1.Some? then Escaped(retried.1.value, retried.0) else Failed(retried.0)
  }

  /** One turn of the loop: commit the batch; when it does not verify, queue the failures again,
      tear down and connect with at most `fuel` attempts. */
  ghost function Round(requests: map<int, RelpFrameTX>, fuel: nat, p: Progress): (RoundEnd, Progress) {
    var script := NextCommit(p.commits);
    var stored := p.responses + Answered(script.answers, p.queue, requests);
    var end := RoundEndOf(requests.Keys, stored, script.thrown);
    var committed := p.calls + [CommitCall];
    if end.Failed? then
      var n := Attempts(p.connects, fuel);
      (end, Progress(stored, end.requeued, Rest(p.commits), Drop(p.connects, n),
                     committed + [TearDownCall] + Repeat(ConnectCall, n)))
    else
      (end, Progress(stored, if end.Escaped? then end.queue else {}, Rest(p.commits), p.connects, committed))
  }

  /** At most `rounds` turns of the loop: what `ensureSent(batch)` returns, and what it leaves.
      A reconnect whose `fuel` attempts all fail ends the loop with `false` before any further
      commit, where the Java would go on connecting. */
  ghost function Deliver(requests: map<int, RelpFrameTX>, fuel: nat, p: Progress, rounds: nat): (Outcome<bool>, Progress)
    decreases rounds
  {
    if rounds == 0 then (Ok(false), p)
    else
      var turn := Round(requests, fuel, p);
      match turn.0
      case Escaped(e, _) => (Thrown(e), turn.1)
      case Delivered => (Ok(true), turn.1)
      case Failed(_) =>
        if Connects(p.connects, fuel) then Deliver(requests, fuel, turn.1, rounds - 1) else (Ok(false), turn.1)
  }

  /** A turn delivers exactly when every request verifies against the stored responses; a
      failed turn queues again exactly the requests whose response is missing or not 200, and
      there is at least one. */
  lemma RoundMeaning(requests: map<int, RelpFrameTX>, fuel: nat, p: Progress)
    ensures var script := NextCommit(p.commits);
      var stored := p.responses + Answered(script.answers, p.queue, requests);
      var end := Round(requests, fuel, p).0;
      (end.Delivered? <==>
        (script.thrown.None? || script.thrown.value.IsStateIoOrTimeout()) &&
        forall id :: id in requests ==> Verification(requests.Keys, stored, id) == Ok(true)) &&
      (end.Failed? ==>
        end.requeued != {} &&
        forall id :: id in requests ==> (id in end.requeued <==> Verification(requests.Keys, stored, id) == Ok(false)))
  {
    var script := NextCommit(p.commits);
    var stored := p.responses + Answered(script.answers, p.queue, requests);
    var known := requests.Keys;
    VerifyAllMeaning(known, stored, known);
    RetryMeaning(known, stored, known);
    var end := Round(requests, fuel, p).0;
    if end.Failed? {
      var id :| id in known && Verification(known, stored, id) != Ok(true);
      assert id in end.requeued;
    }
  }

  /** How often a call occurs in a log. */
  function Occurrences(calls: seq<Call>, c: Call): (n: nat)
    ensures n <= |calls|
  {
    if calls == [] then 0 else (if calls[|calls| - 1] == c then 1 else 0) + Occurrences(calls[..|calls| - 1], c)
  }

  lemma {:induction false} OccurrencesConcat(a: seq<Call>, b: seq<Call>, c: Call)
    ensures Occurrences(a + b, c) == Occurrences(a, c) + Occurrences(b, c)
    decreases |b|
  {
    if b != [] {
      assert (a + b)[|a + b| - 1] == b[|b| - 1];
      assert (a + b)[..|a + b| - 1] == a + b[..|b| - 1];
      OccurrencesConcat(a, b[..|b| - 1], c);
    } else {
      assert a + b == a;
    }
  }

  lemma {:induction false} OccurrencesRepeat(d: Call, n: nat, c: Call)
    ensures Occurrences(Repeat(d, n), c) == if c == d then n else 0
  {
    if n > 0 {
      OccurrencesConcat([d], Repeat(d, n - 1), c);
      assert Occurrences([d], c) == if c == d then 1 else 0 by {
        assert [d][..0] == [];
      }
      OccurrencesRepeat(d, n - 1, c);
    }
  }

  /** Whether a log ends with the calls `tail`. */
  predicate EndsWith(calls: seq<Call>, tail: seq<Call>) {
    |tail| <= |calls| && calls[|calls| - |tail|..] == tail
  }

  /** When the loop gives up, either every one of its `rounds` turns committed once and failed,
      or fewer turns were made and the last one ended with a commit, a tear-down and `fuel`
      connect attempts none of which connected. */
  lemma {:induction false} DeliverExhausted(requests: map<int, RelpFrameTX>, fuel: nat, p: Progress, rounds: nat)
    ensures var out := Deliver(requests, fuel, p, rounds);
      var commits := Occurrences(out.1.calls, CommitCall) - Occurrences(p.calls, CommitCall);
      out.0 == Ok(false) ==>
        commits == rounds ||
        (0 < commits < rounds && EndsWith(out.1.calls, [CommitCall, TearDownCall] + Repeat(ConnectCall, fuel)))
    decreases rounds
  {
    if rounds > 0 {
      var turn := Round(requests, fuel, p);
      if turn.0.Failed? {
        var n := Attempts(p.connects, fuel);
        OccurrencesConcat(p.calls, [CommitCall], CommitCall);
        OccurrencesConcat(p.calls + [CommitCall], [TearDownCall], CommitCall);
        OccurrencesConcat(p.calls + [CommitCall] + [TearDownCall], Repeat(ConnectCall, n), CommitCall);
        OccurrencesRepeat(ConnectCall, n, CommitCall);
        assert Occurrences([CommitCall], CommitCall) == 1 by { assert [CommitCall][..0] == []; }
        assert Occurrences([TearDownCall], CommitCall) == 0 by { assert [TearDownCall][..0] == []; }
        if Connects(p.connects, fuel) {
          DeliverExhausted(requests, fuel, turn.1, rounds - 1);
        } else {
          AttemptsMeaning(p.connects, fuel);
          var tail := [CommitCall, TearDownCall] + Repeat(ConnectCall, fuel);
          assert turn.1.calls == p.calls + tail;
        }
      }
    }
  }

  /** When the loop returns normally, every request verifies against the responses it left. */
  lemma {:induction false} DeliverVerified(requests: map<int, RelpFrameTX>, fuel: nat, p: Progress, rounds: nat)
    ensures var out := Deliver(requests, fuel, p, rounds);
      out.0 == Ok(true) ==> forall id :: id in requests ==> Verification(requests.Keys, out.1.responses, id) == Ok(true)
    decreases rounds
  {
    if rounds > 0 {
      var turn := Round(requests, fuel, p);
      RoundMeaning(requests, fuel, p);
      if turn.0.Failed? {
        DeliverVerified(requests, fuel, turn.1, rounds - 1);
      }
    }
  }

  /** A commit whose peer answers every request with code 200, and which throws nothing that
      escapes, ends the loop in its first turn with every answer stored. */
  lemma DeliverAnsweredAll(requests: map<int, RelpFrameTX>, fuel: nat, p: Progress, rounds: nat)
    requires rounds >= 1
    requires var script := NextCommit(p.commits);
      (script.thrown.None? || script.thrown.value.IsStateIoOrTimeout()) &&
      forall id :: id in requests ==> id in p.queue && id in script.answers && ResponseCode(script.answers[id].data) == Ok(200)
    ensures var out := Deliver(requests, fuel, p, rounds);
      out.0 == Ok(true) && out.1.calls == p.calls + [CommitCall] &&
      forall id :: id in requests ==> id in out.1.responses && out.1.responses[id] == NextCommit(p.commits).answers[id]
  {
    var script := NextCommit(p.commits);
    var stored := p.responses + Answered(script.answers, p.queue, requests);
    var known := requests.Keys;
    AnsweredAllStored(requests, p.responses, script.answers, p.queue);
    VerifyAllMeaning(known, stored, known);
    assert RoundEndOf(known, stored, script.thrown) == Delivered;
    assert Round(requests, fuel, p) == (Delivered, Progress(stored, {}, Rest(p.commits), p.connects, p.calls + [CommitCall]));
    DeliverTurn(requests, fuel, p, rounds);
  }

  /** Answers for every request, all with code 200, make every request verify. */
  lemma AnsweredAllStored(requests: map<int, RelpFrameTX>, responses: map<int, RelpFrameRX>, answers: map<int, RelpFrameRX>, queue: set<int>)
    requires forall id :: id in requests ==> id in queue && id in answers && ResponseCode(answers[id].data) == Ok(200)
    ensures var stored := responses + Answered(answers, queue, requests);
      forall id :: id in requests ==> id in stored && stored[id] == answers[id] && Verification(requests.Keys, stored, id) == Ok(true)
  {
  }

  /** One turn of `Deliver`. */
  lemma DeliverTurn(requests: map<int, RelpFrameTX>, fuel: nat, p: Progress, rounds: nat)
    requires rounds >= 1
    ensures var turn := Round(requests, fuel, p);
      Deliver(requests, fuel, p, rounds) ==
        match turn.0
        case Escaped(e, _) => (Thrown(e), turn.1)
        case Delivered => (Ok(true), turn.1)
        case Failed(_) =>
          if Connects(p.connects, fuel) then Deliver(requests, fuel, turn.1, rounds - 1) else (Ok(false), turn.1)
  {
  }

  class ManagedRelpConnection {
    const relpConnection: ScriptedRelpConnection
    var hasConnected: bool

    /** Once the managed layer has started connecting, the wrapped connection has a socket. */
    ghost predicate Valid()
      reads this, relpConnection
    {
      hasConnected ==> relpConnection.everConnected
    }

    /** What `ensureSent(batch)` works on: the batch's responses and queue, and the wrapped
        connection's scripts and call log. */
    ghost function Current(batch: RelpBatch): Progress
      reads batch, relpConnection
    {
      Progress(batch.responses, batch.workQueue, relpConnection.commits, relpConnection.connects, relpConnection.calls)
    }

    constructor (relpConnection: ScriptedRelpConnection)
      ensures this.relpConnection == relpConnection && !hasConnected && Valid()
    {
      this.relpConnection := relpConnection;
      hasConnected := false;
    }

    /** `connect()`: `hasConnected` is set before each attempt; an attempt that throws is
        followed by a pause, one that returns false by the next attempt at once. The loop
        runs until an attempt returns true, here for at most `fuel` attempts. */
    method Connect(fuel: nat) returns (connected: bool)
      requires Valid()
      modifies this, relpConnection
      ensures Valid()
      ensures hasConnected == (old(hasConnected) || fuel > 0)
      ensures connected == Connects(old(relpConnection.connects), fuel)
      ensures var n := Attempts(old(relpConnection.connects), fuel);
        relpConnection.calls == old(relpConnection.calls) + Repeat(ConnectCall, n) &&
        relpConnection.connects == Drop(old(relpConnection.connects), n)
      ensures relpConnection.disconnects == old(relpConnection.disconnects) && relpConnection.commits == old(relpConnection.commits)
    {
      connected := false;
      var attempts := 0;
      while !connected && attempts < fuel
        invariant Valid() && attempts <= fuel
        invariant hasConnected == (old(hasConnected) || attempts > 0)
        invariant connected ==> attempts > 0
        invariant var s := old(relpConnection.connects);
          if connected then Connects(s, fuel) && Attempts(s, fuel) == attempts
          else Connects(s, fuel) == Connects(Drop(s, attempts), fuel - attempts) &&
               Attempts(s, fuel) == attempts + Attempts(Drop(s, attempts), fuel - attempts)
        invariant relpConnection.calls == old(relpConnection.calls) + Repeat(ConnectCall, attempts)
        invariant relpConnection.connects == Drop(old(relpConnection.connects), attempts)
        invariant relpConnection.disconnects == old(relpConnection.disconnects) && relpConnection.commits == old(relpConnection.commits)
        decreases fuel - attempts
      {
        hasConnected := true;
        ghost var s := relpConnection.connects;
        var r := relpConnection.Connect();
        assert Rest(s) == Drop(old(relpConnection.connects), attempts + 1);
        assert Repeat(ConnectCall, attempts + 1) == Repeat(ConnectCall, attempts) + [ConnectCall];
        attempts := attempts + 1;
        connected := r.Ok? && r.value;
      }
      assert Drop(old(relpConnection.connects), fuel) == Drop(old(relpConnection.connects), attempts) || connected;
    }

    /** The private `tearDown()`: only a connection that was connected before is torn down,
        which keeps the wrapped connection's NullPointerException out. */
    method TearDown()
      requires Valid()
      modifies relpConnection
      ensures Valid()
      ensures relpConnection.calls == old(relpConnection.calls) + (if hasConnected then [TearDownCall] else [])
      ensures relpConnection.connects == old(relpConnection.connects) && relpConnection.disconnects == old(relpConnection.disconnects)
      ensures relpConnection.commits == old(relpConnection.commits)
    {
      if hasConnected {
        var err := relpConnection.TearDown();
        assert err.None?;
      }
    }

    /** `ensureSent(batch)`: connect first if never connected, then commit until every
        request verifies. A commit's IllegalState, I/O or timeout exception is swallowed; after
        a round that does not verify, failed requests are queued again and the connection is
        torn down and reconnected. Here at most `fuel` rounds are made, and each connect makes
        at most `fuel` attempts: a first connect that does not succeed returns `false` before
        any commit, and later rounds are those of `Deliver`. */
    method EnsureSent(batch: RelpBatch, fuel: nat) returns (r: Outcome<bool>)
      requires Valid() && batch.Valid()
      modifies this, relpConnection, batch
      ensures Valid() && batch.Valid()
      ensures batch.requests == old(batch.requests) && batch.nextId == old(batch.nextId)
      ensures hasConnected == (old(hasConnected) || fuel > 0)
      ensures var n := if old(hasConnected) then 0 else Attempts(old(relpConnection.connects), fuel);
        var start := Progress(old(batch.responses), old(batch.workQueue), old(relpConnection.commits),
                              Drop(old(relpConnection.connects), n), old(relpConnection.calls) + Repeat(ConnectCall, n));
        if !old(hasConnected) && !Connects(old(relpConnection.connects), fuel) then
          r == Ok(false) && Current(batch) == start
        else
          (r, Current(batch)) == Deliver(batch.requests, fuel, start, fuel)
      ensures r == Ok(true) ==> VerifyAllOf(batch.requests.Keys, batch.responses, batch.requests.Keys) == Ok(true)
      ensures r == Ok(true) ==> forall id :: id in batch.requests ==> Verification(batch.requests.Keys, batch.responses, id) == Ok(true)
      ensures r.Thrown? ==> !r.ex.IsStateIoOrTimeout()
      ensures !old(hasConnected) && fuel > 0 ==>
        |relpConnection.calls| > |old(relpConnection.calls)| && relpConnection.calls[|old(relpConnection.calls)|] == ConnectCall
    {
      ghost var calls0 := relpConnection.calls;
      if !hasConnected {
        var connected := Connect(fuel);
        if !connected {
          return Ok(false);
        }
      }
      assert !old(hasConnected) && fuel > 0 ==>
        |relpConnection.calls| > |calls0| && relpConnection.calls[|calls0|] == ConnectCall;
      assert old(hasConnected) ==> Drop(old(relpConnection.connects), 0) == old(relpConnection.connects);
      assert old(hasConnected) ==> calls0 + Repeat(ConnectCall, 0) == calls0;
      r := SendRounds(batch, fuel);
    }

    /** The loop of `ensureSent(batch)` after the first connect: at most `fuel` rounds, those of
        `Deliver`. */
    method SendRounds(batch: RelpBatch, fuel: nat) returns (r: Outcome<bool>)
      requires Valid() && batch.Valid() && (fuel > 0 ==> hasConnected)
      modifies this, relpConnection, batch
      ensures Valid() && batch.Valid() && hasConnected == old(hasConnected)
      ensures batch.requests == old(batch.requests) && batch.nextId == old(batch.nextId)
      ensures (r, Current(batch)) == Deliver(batch.requests, fuel, old(Current(batch)), fuel)
      ensures old(relpConnection.calls) <= relpConnection.calls
      ensures r == Ok(true) ==> VerifyAllOf(batch.requests.Keys, batch.responses, batch.requests.Keys) == Ok(true)
      ensures r == Ok(true) ==> forall id :: id in batch.requests ==> Verification(batch.requests.Keys, batch.responses, id) == Ok(true)
      ensures r.Thrown? ==> !r.ex.IsStateIoOrTimeout()
    {
      ghost var start := Current(batch);
      var notSent, connected := true, true;
      var rounds := 0;
      while notSent && connected && rounds < fuel
        invariant Valid() && batch.Valid()
        invariant batch.requests == old(batch.requests) && batch.nextId == old(batch.nextId)
        invariant hasConnected == old(hasConnected)
        invariant rounds <= fuel
        invariant old(relpConnection.calls) <= relpConnection.calls
        invariant !notSent ==> VerifyAllOf(batch.requests.Keys, batch.responses, batch.requests.Keys) == Ok(true)
        invariant notSent && connected ==> Deliver(batch.requests, fuel, start, fuel) == Deliver(batch.requests, fuel, Current(batch), fuel - rounds)
        invariant notSent && !connected ==> Deliver(batch.requests, fuel, start, fuel) == (Ok(false), Current(batch))
        invariant !notSent ==> Deliver(batch.requests, fuel, start, fuel) == (Ok(true), Current(batch))
        decreases fuel - rounds
      {
        ghost var before := Current(batch);
        DeliverTurn(batch.requests, fuel, before, fuel - rounds);
        rounds := rounds + 1;
        var err;
        err, notSent, connected := SendRound(batch, fuel);
        ghost var turn := Round(batch.requests, fuel, before);
        assert Current(batch) == turn.1;
        assert err.Some? ==> turn.0 == Escaped(err.value, turn.0.queue);
        assert err.None? && !notSent ==> turn.0 == Delivered;
        assert err.None? && notSent ==> turn.0.Failed? && connected == Connects(before.connects, fuel);
        if err.Some? {
          return Thrown(err.value);
        }
      }
      if !notSent {
        VerifyAllMeaning(batch.requests.Keys, batch.responses, batch.requests.Keys);
      }
      r := Ok(!notSent);
    }

    /** One turn of the loop of `ensureSent(batch)`: commit; a failure that is not a state, I/O
        or timeout exception escapes; when the batch does not verify, the failed requests are
        queued again and the connection torn down and made again, and `connected` says whether
        that reconnect succeeded within `fuel` attempts. The turn is `Round`. */
    method SendRound(batch: RelpBatch, fuel: nat) returns (err: Option<Exception>, notSent: bool, connected: bool)
      requires Valid() && batch.Valid() && hasConnected
      modifies this, relpConnection, batch
      ensures Valid() && batch.Valid() && hasConnected
      ensures batch.requests == old(batch.requests) && batch.nextId == old(batch.nextId)
      ensures var turn := Round(batch.requests, fuel, old(Current(batch)));
        Current(batch) == turn.1 &&
        err == (if turn.0.Escaped? then Some(turn.0.ex) else None) &&
        notSent == !turn.0.Delivered? &&
        (turn.0.Failed? ==> connected == Connects(old(relpConnection.connects), fuel))
      ensures err.Some? ==> !err.value.IsStateIoOrTimeout()
      ensures err.None? && !notSent ==> VerifyAllOf(batch.requests.Keys, batch.responses, batch.requests.Keys) == Ok(true)
    {
      notSent, connected := true, true;
      err := relpConnection.Commit(batch);
      if err.Some? && !err.value.IsStateIoOrTimeout() {
        return;
      }
      err := None;
      var verified := batch.VerifyTransactionAll();
      if verified.Thrown? {
        VerifyAllThrowsIllegalArgument(batch.requests.Keys, batch.responses, batch.requests.Keys);
        return Some(verified.ex), notSent, connected;
      }
      if !verified.value {
        var retryErr := batch.RetryAllFailed();
        if retryErr.Some? {
          RetryThrowsIllegalArgument(batch.requests.Keys, batch.responses, batch.requests.Keys);
          return retryErr, notSent, connected;
        }
        TearDown();
        connected := Connect(fuel);
      } else {
        notSent := false;
      }
    }

    /** `ensureSent(bytes)`: a fresh batch holding just that payload as a syslog request. */
    method EnsureSentBytes(bytes: Option<seq<byte>>, fuel: nat) returns (r: Outcome<bool>, batch: RelpBatch)
      requires Valid() && (bytes.Some? ==> |bytes.value| <= MaxInt)
      modifies this, relpConnection
      ensures Valid() && fresh(batch) && batch.Valid()
      ensures batch.requests.Keys == {0} && batch.requests[0].data == bytes && batch.requests[0].command == SYSLOG
      ensures r == Ok(true) ==> Verification({0}, batch.responses, 0) == Ok(true)
      ensures r.Thrown? ==> !r.ex.IsStateIoOrTimeout()
    {
      batch := new RelpBatch();
      var id := batch.Insert(bytes);
      assert batch.requests.Keys == {0};
      r := EnsureSent(batch, fuel);
    }

    function IsStub(): (b: bool)
      ensures !b
    {
      false
    }

    /** `close()`: disconnect, swallowing IllegalState, I/O and timeout exceptions, and tear
        down in any case; any other exception propagates after the tear-down. */
    method Close() returns (err: Option<Exception>)
      requires Valid()
      modifies relpConnection
      ensures Valid()
      ensures relpConnection.calls == old(relpConnection.calls) + [DisconnectCall] + (if hasConnected then [TearDownCall] else [])
      ensures var d := NextOutcome(old(relpConnection.disconnects));
        err == if d.Thrown? && !d.ex.IsStateIoOrTimeout() then Some(d.ex) else None
      ensures relpConnection.connects == old(relpConnection.connects) && relpConnection.commits == old(relpConnection.commits)
      ensures relpConnection.disconnects == Rest(old(relpConnection.disconnects))
    {
      var disconnected := relpConnection.Disconnect();
      err := None;
      if disconnected.Thrown? && !disconnected.ex.IsStateIoOrTimeout() {
        err := Some(disconnected.ex);
      }
      TearDown();
    }

    /** `forceReconnect()`: tear down, then connect. */
    method ForceReconnect(fuel: nat) returns (connected: bool)
      requires Valid()
      modifies this, relpConnection
      ensures Valid() && hasConnected == (old(hasConnected) || fuel > 0)
      ensures connected == Connects(old(relpConnection.connects), fuel)
      ensures relpConnection.calls ==
        old(relpConnection.calls) + (if old(hasConnected) then [TearDownCall] else []) +
        Repeat(ConnectCall, Attempts(old(relpConnection.connects), fuel))
    {
      TearDown();
      connected := Connect(fuel);
    }

    /** `reconnect()`: close, then connect; an exception `close` lets through skips the
        connect. */
    method Reconnect(fuel: nat) returns (r: Outcome<bool>)
      requires Valid()
      modifies this, relpConnection
      ensures Valid()
      ensures var d := NextOutcome(old(relpConnection.disconnects));
        if d.Thrown? && !d.ex.IsStateIoOrTimeout() then
          r == Thrown(d.ex) && hasConnected == old(hasConnected) &&
          relpConnection.calls == old(relpConnection.calls) + [DisconnectCall] + (if old(hasConnected) then [TearDownCall] else [])
        else
          r == Ok(Connects(old(relpConnection.connects), fuel)) &&
          relpConnection.calls == old(relpConnection.calls) + [DisconnectCall] + (if old(hasConnected) then [TearDownCall] else []) +
            Repeat(ConnectCall, Attempts(old(relpConnection.connects), fuel))
    {
      var err := Close();
      if err.Some? {
        return Thrown(err.value);
      }
      var connected := Connect(fuel);
      r := Ok(connected);
    }
  }
}
