/**
 * The remote side as the engine sees it. Every HTTP exchange is one attempt:
 * it either throws (connection or parse failure) or yields a status code and,
 * for a create, the `uuid` and `name` read back from the body. The server is
 * a script fixed in advance: the k-th request ever sent gets `script(k)`, so
 * every success and failure branch is reachable and nothing is assumed about
 * the network.
 */
module Remote {
  import opened Wrappers

  /** The HTTP feeds whose pages are fetched with retries. */
  datatype Feed = HfrFacilities | HfrAdminHierarchy

  /** The requests the engine sends, with the data each one carries. */
  datatype Request =
    | RenameRequest(locationId: Option<string>, newName: string)
    | ReparentRequest(locationId: Option<string>, parentUuid: Option<string>)
    | AttributeRequest(locationId: Option<string>, attributeType: string, value: string)
    | CreateRequest(name: string, parentUuid: Option<string>, tags: set<string>, attributes: map<string, string>)
    | PageRequest(feed: Feed, page: int)

  /** One attempt's outcome: it threw, or the server answered. */
  datatype Reply = Failed | Answered(status: int, uuid: Option<string>, name: Option<string>)

  /**
   * When a retry loop stops: the update helpers stop only on status 200;
   * a create stops on any status except a 200/201 whose body lacks uuid or
   * name (reading it throws); a page fetch stops on anything but a throw.
   */
  datatype Discipline = UntilOk | UntilAnswer | UntilNoThrow

  predicate Stops(reply: Reply, d: Discipline)
  {
    match d
    case UntilOk => reply.Answered? && reply.status == 200
    case UntilAnswer =>
      reply.Answered? && !((reply.status == 200 || reply.status == 201) && (reply.uuid.None? || reply.name.None?))
    case UntilNoThrow => reply.Answered?
  }

  /** The number of attempts a loop allowing `max` makes when its first request gets `script(start)`. */
  function Attempts(script: nat -> Reply, start: nat, max: nat, d: Discipline): (n: nat)
    ensures n <= max
    ensures max > 0 ==> n >= 1
    decreases max
  {
    if max == 0 then 0
    else if Stops(script(start), d) then 1
    else 1 + Attempts(script, start + 1, max - 1, d)
  }

  /** Whether the attempts ended on a stopping reply rather than by running out. */
  predicate Stopped(script: nat -> Reply, start: nat, max: nat, d: Discipline)
  {
    max > 0 && Stops(script(start + Attempts(script, start, max, d) - 1), d)
  }

  /** The reply to the last attempt made. */
  function LastReply(script: nat -> Reply, start: nat, max: nat, d: Discipline): Reply
    requires max > 0
  {
    script(start + Attempts(script, start, max, d) - 1)
  }

  /** n copies of the same request, as a retry loop sends them. */
  function Repeat(req: Request, n: nat): (r: seq<Request>)
    ensures |r| == n
    ensures forall i :: 0 <= i < n ==> r[i] == req
  {
    if n == 0 then [] else Repeat(req, n - 1) + [req]
  }

  /**
   * The attempts are the replies up to and including the first stopping
   * one, capped at `max`: every earlier reply does not stop the loop, and
   * running short of `max` means the last reply did.
   */
  lemma {:induction false} AttemptsIsFirstStop(script: nat -> Reply, start: nat, max: nat, d: Discipline)
    ensures var n := Attempts(script, start, max, d);
      (forall k :: start <= k < start + n - 1 ==> !Stops(script(k), d)) &&
      (n < max ==> Stops(script(start + n - 1), d)) &&
      (Stopped(script, start, max, d) <==> (max > 0 && Stops(script(start + n - 1), d)))
    decreases max
  {
    if max > 0 && !Stops(script(start), d) {
      AttemptsIsFirstStop(script, start + 1, max - 1, d);
    }
  }

  /** A first reply that stops the loop means exactly one attempt, whatever the later replies are. */
  lemma OneAttemptWhenFirstStops(script: nat -> Reply, start: nat, max: nat, d: Discipline)
    requires max > 0 && Stops(script(start), d)
    ensures Attempts(script, start, max, d) == 1
    ensures Stopped(script, start, max, d) && LastReply(script, start, max, d) == script(start)
  {
  }

  /** A loop that never sees a stopping reply uses all of its attempts and does not stop. */
  lemma {:induction false} AllAttemptsWhenNoneStops(script: nat -> Reply, start: nat, max: nat, d: Discipline)
    requires forall k :: start <= k < start + max ==> !Stops(script(k), d)
    ensures Attempts(script, start, max, d) == max
    ensures !Stopped(script, start, max, d)
    decreases max
  {
    if max > 0 {
      AllAttemptsWhenNoneStops(script, start + 1, max - 1, d);
    }
  }

  /** One more attempt that does not stop the loop: the count carries over to the rest. */
  lemma AttemptContinues(script: nat -> Reply, start: nat, max: nat, d: Discipline, a: nat)
    requires 1 <= a <= max
    requires Attempts(script, start, max, d) == a - 1 + Attempts(script, start + a - 1, max + 1 - a, d)
    requires !Stops(script(start + a - 1), d)
    ensures Attempts(script, start, max, d) == a + Attempts(script, start + a, max - a, d)
  {
  }

  /** An attempt that stops the loop is the last one, and the loop stopped. */
  lemma AttemptEnds(script: nat -> Reply, start: nat, max: nat, d: Discipline, a: nat)
    requires 1 <= a <= max
    requires Attempts(script, start, max, d) == a - 1 + Attempts(script, start + a - 1, max + 1 - a, d)
    requires Stops(script(start + a - 1), d)
    ensures Attempts(script, start, max, d) == a
    ensures Stopped(script, start, max, d) && LastReply(script, start, max, d) == script(start + a - 1)
  {
  }

  /** Running out of attempts: every attempt was made and the last reply did not stop the loop. */
  lemma AttemptsExhausted(script: nat -> Reply, start: nat, max: nat, d: Discipline)
    requires Attempts(script, start, max, d) == max + Attempts(script, start + max, 0, d)
    requires max > 0 ==> !Stops(script(start + max - 1), d)
    ensures Attempts(script, start, max, d) == max
    ensures !Stopped(script, start, max, d)
  {
  }

  /** Logging one more copy of the request extends the log of the earlier copies. */
  lemma RepeatGrows(log: seq<Request>, req: Request, n: nat)
    ensures log + Repeat(req, n) + [req] == log + Repeat(req, n + 1)
  {
    assert Repeat(req, n + 1) == Repeat(req, n) + [req];
    assert log + Repeat(req, n) + [req] == log + (Repeat(req, n) + [req]);
  }

  /** A log extended twice holds the two stretches in order, whichever way they are grouped. */
  lemma AppendTwice<T>(a: seq<T>, b: seq<T>, c: seq<T>, mid: seq<T>, last: seq<T>)
    requires mid == a + b && last == mid + c
    ensures last == a + (b + c) && last == a + b + c
  {
  }

  /** Every reply from position `from` on is a 200: each update helper called from there succeeds at its first attempt. */
  ghost predicate AllAccepted(script: nat -> Reply, from: nat)
  {
    forall k :: from <= k ==> Stops(script(k), UntilOk)
  }

  /** Request `q` was logged at position `from` or later. */
  ghost predicate SentSince(log: seq<Request>, from: nat, q: Request)
  {
    exists k :: from <= k < |log| && log[k] == q
  }

  /** A request logged stays logged when the log grows. */
  lemma SentSinceKept(mid: seq<Request>, now: seq<Request>, from: nat, q: Request)
    requires |now| >= |mid| && now[..|mid|] == mid && SentSince(mid, from, q)
    ensures SentSince(now, from, q)
  {
    var k :| from <= k < |mid| && mid[k] == q;
    assert now[k] == now[..|mid|][k];
  }

  /** A stretch of retries of `req` appended to the log logs `req`. */
  lemma SentSinceRepeat(log0: seq<Request>, from: nat, req: Request, n: nat, tail: seq<Request>, now: seq<Request>)
    requires from <= |log0| && n >= 1 && now == log0 + (Repeat(req, n) + tail)
    ensures SentSince(now, from, req)
  {
    assert now[|log0|] == Repeat(req, n)[0];
  }

  /** The server: its fixed script and the log of every request sent so far. */
  class Server {
    const script: nat -> Reply
    var sent: seq<Request>

    constructor (script: nat -> Reply)
      ensures this.script == script && sent == []
    {
      this.script := script;
      sent := [];
    }

    /** One attempt: the request is logged and gets the next scripted reply. */
    method Send(req: Request) returns (reply: Reply)
      modifies this
      ensures sent == old(sent) + [req]
      ensures reply == script(|old(sent)|)
    {
      reply := script(|sent|);
      sent := sent + [req];
    }

    /**
     * One attempt of a retry loop, the `attempt`-th of at most `max` since
     * the loop began at log position `start`.
     */
    method TryOnce(req: Request, ghost start: nat, max: nat, d: Discipline, attempt: nat) returns (last: Reply)
      requires 1 <= attempt <= max && |sent| == start + attempt - 1
      requires Attempts(script, start, max, d) == attempt - 1 + Attempts(script, start + attempt - 1, max + 1 - attempt, d)
      modifies this
      ensures sent == old(sent) + [req] && last == script(start + attempt - 1)
      ensures Stops(last, d) ==>
        Attempts(script, start, max, d) == attempt && Stopped(script, start, max, d) && LastReply(script, start, max, d) == last
      ensures !Stops(last, d) ==> Attempts(script, start, max, d) == attempt + Attempts(script, start + attempt, max - attempt, d)
    {
      last := Send(req);
      if Stops(last, d) {
        AttemptEnds(script, start, max, d, attempt);
      } else {
        AttemptContinues(script, start, max, d, attempt);
      }
    }

    /**
     * The retry loop shared by every remote write: the same request is sent
     * until a reply stops the loop or `maxAttempts` attempts are used. Each
     * caller applies its local effect only when the loop stopped.
     */
    method SendWithRetries(req: Request, maxAttempts: nat, d: Discipline) returns (last: Reply, stopped: bool)
      modifies this
      ensures sent == old(sent) + Repeat(req, Attempts(script, |old(sent)|, maxAttempts, d))
      ensures stopped == Stopped(script, |old(sent)|, maxAttempts, d)
      ensures stopped ==> last == LastReply(script, |old(sent)|, maxAttempts, d) && Stops(last, d)
    {
      ghost var start := |sent|;
      var attempt := 1;
      last, stopped := Failed, false;
      while attempt <= maxAttempts && !stopped
        invariant 1 <= attempt <= maxAttempts + 1
        invariant sent == old(sent) + Repeat(req, attempt - 1)
        invariant stopped ==> (Attempts(script, start, maxAttempts, d) == attempt - 1 &&
          Stopped(script, start, maxAttempts, d) && LastReply(script, start, maxAttempts, d) == last && Stops(last, d))
        invariant !stopped ==>
          Attempts(script, start, maxAttempts, d) == attempt - 1 + Attempts(script, start + attempt - 1, maxAttempts + 1 - attempt, d)
        invariant !stopped && attempt > 1 ==> last == script(start + attempt - 2) && !Stops(last, d)
      {
        RepeatGrows(old(sent), req, attempt - 1);
        last := TryOnce(req, start, maxAttempts, d, attempt);
        stopped := Stops(last, d);
        attempt := attempt + 1;
      }
      if !stopped {
        AttemptsExhausted(script, start, maxAttempts, d);
      }
    }
  }
}
