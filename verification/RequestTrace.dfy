/** What happens to one request, in order: calls into the middleware chain, numbered from 0, and the
    attempt on the Backend. */
module RequestTrace {

  datatype Event = OnRequest(i: nat, ok: bool) | Backend(ok: bool) | OnResponse(i: nat, ok: bool)

  /** The first k OnRequest calls, each ending well. */
  function RequestCalls(k: nat): seq<Event> {
    seq(k, i requires 0 <= i => OnRequest(i, true))
  }

  function ResponseCalls(k: nat): seq<Event> {
    seq(k, i requires 0 <= i => OnResponse(i, true))
  }

  /** The whole OnRequest chain of n calls, and the attempt. */
  function Tried(n: nat, ok: bool): seq<Event> {
    RequestCalls(n) + [Backend(ok)]
  }

  /** An OnRequest call stopped the request. */
  ghost predicate RefusedBefore(trace: seq<Event>, n: nat) {
    exists k: nat :: k < n && trace == RequestCalls(k) + [OnRequest(k, false)]
  }

  /** An OnResponse call stopped the request, after an attempt that ended like this. */
  ghost predicate RefusedAfter(trace: seq<Event>, n: nat, ok: bool) {
    exists k: nat :: k < n && trace == Tried(n, ok) + ResponseCalls(k) + [OnResponse(k, false)]
  }

  /** How a finished request went: stopped before the attempt, or exactly one attempt and then the
      OnResponse calls, up to the first that fails or all of them. */
  ghost predicate Finished(trace: seq<Event>, n: nat) {
    || RefusedBefore(trace, n)
    || (exists ok :: RefusedAfter(trace, n, ok) || trace == Tried(n, ok) + ResponseCalls(n))
  }

  lemma OneMoreRequestCall(k: nat)
    ensures RequestCalls(k) + [OnRequest(k, true)] == RequestCalls(k + 1)
  {
  }

  lemma OneMoreResponseCall(k: nat)
    ensures ResponseCalls(k) + [OnResponse(k, true)] == ResponseCalls(k + 1)
  {
  }

  function Attempts(trace: seq<Event>): nat {
    multiset(trace)[Backend(true)] + multiset(trace)[Backend(false)]
  }

  ghost predicate InOrder(trace: seq<Event>) {
    forall a, b :: 0 <= a < b < |trace| ==> Before(trace[a], trace[b])
  }

  /** OnRequest calls, the attempt and OnResponse calls follow each other, each chain in its order,
      and nothing follows a call that failed. */
  predicate Before(a: Event, b: Event) {
    match a
    case OnRequest(i, ok) => ok && (b.OnRequest? ==> i < b.i)
    case Backend(_) => b.OnResponse?
    case OnResponse(i, ok) => ok && b.OnResponse? && i < b.i
  }

  lemma CallsAreNoAttempts(k: nat)
    ensures Attempts(RequestCalls(k)) == 0 && Attempts(ResponseCalls(k)) == 0
  {
  }

  lemma AttemptsAdd(a: seq<Event>, b: seq<Event>)
    ensures Attempts(a + b) == Attempts(a) + Attempts(b)
  {
    assert multiset(a + b) == multiset(a) + multiset(b);
  }

  lemma StoppedBefore(k: nat)
    ensures InOrder(RequestCalls(k) + [OnRequest(k, false)])
    ensures Attempts(RequestCalls(k) + [OnRequest(k, false)]) == 0
  {
    CallsAreNoAttempts(k);
    AttemptsAdd(RequestCalls(k), [OnRequest(k, false)]);
  }

  lemma TriedOnce(n: nat, ok: bool, rest: seq<Event>)
    requires InOrder(rest) && forall i :: 0 <= i < |rest| ==> rest[i].OnResponse?
    ensures InOrder(Tried(n, ok) + rest) && Attempts(Tried(n, ok) + rest) == 1
  {
    CallsAreNoAttempts(n);
    assert Backend(true) !in multiset(rest) && Backend(false) !in multiset(rest);
    AttemptsAdd(RequestCalls(n), [Backend(ok)]);
    AttemptsAdd(Tried(n, ok), rest);
    var trace := Tried(n, ok) + rest;
    forall a, b | 0 <= a < b < |trace| ensures Before(trace[a], trace[b]) {
      if a > n {
        assert trace[a] == rest[a - (n + 1)] && trace[b] == rest[b - (n + 1)];
      } else if b > n {
        assert trace[b] == rest[b - (n + 1)];
      }
    }
  }

  lemma ResponsesInOrder(k: nat)
    ensures InOrder(ResponseCalls(k)) && InOrder(ResponseCalls(k) + [OnResponse(k, false)])
  {
  }

  lemma StoppedAfter(n: nat, ok: bool, k: nat)
    ensures var trace := Tried(n, ok) + ResponseCalls(k) + [OnResponse(k, false)];
            InOrder(trace) && Attempts(trace) == 1
  {
    var rest := ResponseCalls(k) + [OnResponse(k, false)];
    ResponsesInOrder(k);
    TriedOnce(n, ok, rest);
    assert Tried(n, ok) + ResponseCalls(k) + [OnResponse(k, false)] == Tried(n, ok) + rest;
  }

  /** The backend is attempted at most once, and not at all exactly when an OnRequest call failed. */
  lemma BackendIsTriedOnce(trace: seq<Event>, n: nat)
    requires Finished(trace, n)
    ensures InOrder(trace)
    ensures Attempts(trace) == if RefusedBefore(trace, n) then 0 else 1
  {
    if RefusedBefore(trace, n) {
      var k: nat :| k < n && trace == RequestCalls(k) + [OnRequest(k, false)];
      StoppedBefore(k);
    } else {
      var ok :| RefusedAfter(trace, n, ok) || trace == Tried(n, ok) + ResponseCalls(n);
      if RefusedAfter(trace, n, ok) {
        var k: nat :| k < n && trace == Tried(n, ok) + ResponseCalls(k) + [OnResponse(k, false)];
        StoppedAfter(n, ok, k);
      } else {
        ResponsesInOrder(n);
        TriedOnce(n, ok, ResponseCalls(n));
      }
    }
  }
}
