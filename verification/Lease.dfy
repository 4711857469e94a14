/** The lease watcher of cluster/etcd_service_discovery.go: what the keep-alive channel and the renewal attempts deliver
    is given, and the two nested loops run over it. */
module Lease {
  import opened Base

  /** What the select receives: one of the stop channels, a keep-alive response, or a closed channel or nil response. */
  datatype Signal = Stop | Alive | Lost

  /** How one renewLease call ends. Its goroutine starts a new watcher as soon as a lease is granted, even if the
      bootstrap after that fails; a call that times out may have been granted a lease, then or later, or not. */
  datatype Attempt = Renewed | GrantFailed | BootstrapFailed | TimedOut(granted: bool)

  datatype Ending = Stopped | Recovered | Died | Watching

  predicate Retryable(a: Attempt) { a == GrantFailed || a == BootstrapFailed }

  predicate Granted(a: Attempt) { a == Renewed || a == BootstrapFailed || (a.TimedOut? && a.granted) }

  /** The first signal that is not a keep-alive. */
  ghost function FirstEvent(signals: seq<Signal>): Option<Signal> {
    if signals == [] then None else if signals[0] == Alive then FirstEvent(signals[1..]) else Some(signals[0])
  }

  /** A stop or a loss counts exactly if nothing but keep-alives came before it. */
  lemma {:induction false} FirstEventIff(signals: seq<Signal>, e: Signal)
    ensures FirstEvent(signals) == Some(e)
            <==> && e != Alive
                 && exists k :: 0 <= k < |signals| && signals[k] == e && forall j :: 0 <= j < k ==> signals[j] == Alive
    ensures FirstEvent(signals) == None <==> forall j :: 0 <= j < |signals| ==> signals[j] == Alive
  {
    if signals != [] {
      var rest := signals[1..];
      FirstEventIff(rest, e);
      assert forall j :: 0 < j < |signals| ==> signals[j] == rest[j - 1];
      if signals[0] == Alive {
        if k :| 0 <= k < |rest| && rest[k] == e && forall j :: 0 <= j < k ==> rest[j] == Alive {
          assert signals[k + 1] == e;
        }
        if k :| 0 <= k < |signals| && signals[k] == e && k > 0 && forall j :: 0 <= j < k ==> signals[j] == Alive {
          assert rest[k - 1] == e && forall j :: 0 <= j < k - 1 ==> rest[j] == signals[j + 1];
        }
      }
    }
  }

  /** How many of the first n attempts were granted a lease. */
  ghost function Grants(attempts: nat -> Attempt, n: nat): nat {
    if n == 0 then 0 else Grants(attempts, n - 1) + if Granted(attempts(n - 1)) then 1 else 0
  }

  function Max(a: int, b: int): int { if a > b then a else b }

  /** What the renewal loop does when it is entered with `failed` failures on record: it tries until the first success,
      gives up at the first timeout or when the retries are used up, and either recovers or signals the application to
      die, never both. */
  ghost predicate Renewal(attempts: nat -> Attempt, maxRetries: int, hasDieChan: bool, failed: nat,
                          ending: Ending, calls: nat, dieSignals: nat, watchers: nat) {
    && 1 <= calls <= Max(1, maxRetries - failed)
    && (forall i :: 0 <= i < calls - 1 ==> Retryable(attempts(i)))
    && ending == (if attempts(calls - 1) == Renewed then Recovered else Died)
    && (Retryable(attempts(calls - 1)) ==> failed + calls >= maxRetries)
    && dieSignals == (if ending == Died && hasDieChan then 1 else 0)
    && watchers == Grants(attempts, calls)
  }

  method RenewalLoop(attempts: nat -> Attempt, maxRetries: int, hasDieChan: bool, failed0: nat)
    returns (ending: Ending, calls: nat, dieSignals: nat, watchers: nat)
    ensures Renewal(attempts, maxRetries, hasDieChan, failed0, ending, calls, dieSignals, watchers)
  {
    var failed := failed0;
    calls, dieSignals, watchers := 0, 0, 0;
    while true
      invariant failed == failed0 + calls && dieSignals == 0 && watchers == Grants(attempts, calls)
      invariant calls == 0 || failed < maxRetries
      invariant forall i :: 0 <= i < calls ==> Retryable(attempts(i))
      decreases maxRetries - failed
    {
      var result := attempts(calls);
      calls := calls + 1;
      if Granted(result) {
        watchers := watchers + 1;
      }
      if result == Renewed {
        return Recovered, calls, dieSignals, watchers;
      }
      failed := failed + 1;
      if result.TimedOut? || failed >= maxRetries {
        if hasDieChan {
          dieSignals := dieSignals + 1;
        }
        return Died, calls, dieSignals, watchers;
      }
    }
  }

  /** The whole watcher: keep-alives keep it watching, a stop ends it without a call, and the first loss runs the
      renewal loop with no failures on record, which always ends it. */
  method WatchLeaseChan(signals: seq<Signal>, attempts: nat -> Attempt, maxRetries: int, hasDieChan: bool)
    returns (ending: Ending, calls: nat, dieSignals: nat, watchers: nat)
    ensures FirstEvent(signals).None? <==> ending == Watching
    ensures FirstEvent(signals) == Some(Stop) <==> ending == Stopped
    ensures ending == Watching || ending == Stopped ==> calls == 0 && dieSignals == 0 && watchers == 0
    ensures FirstEvent(signals) == Some(Lost) ==>
              Renewal(attempts, maxRetries, hasDieChan, 0, ending, calls, dieSignals, watchers)
  {
    ending, calls, dieSignals, watchers := Watching, 0, 0, 0;
    var failed := 0;
    for n := 0 to |signals|
      invariant FirstEvent(signals) == FirstEvent(signals[n..]) && failed == 0
      invariant ending == Watching && calls == 0 && dieSignals == 0 && watchers == 0
    {
      assert signals[n..][1..] == signals[n + 1..];
      match signals[n] {
        case Stop => return Stopped, 0, 0, 0;
        case Alive => failed := 0;
        case Lost =>
          ending, calls, dieSignals, watchers := RenewalLoop(attempts, maxRetries, hasDieChan, failed);
          return;
      }
    }
  }

  /** The attempt was granted a lease and failed all the same, so its watcher is left over. */
  predicate Leaves(a: Attempt) { Granted(a) && a != Renewed }

  lemma {:induction false} NoGrants(attempts: nat -> Attempt, n: nat)
    ensures Grants(attempts, n) == 0 <==> forall i :: 0 <= i < n ==> !Granted(attempts(i))
  {
    if n > 0 { NoGrants(attempts, n - 1); }
  }

  /** The renewal ends with the watchers it should have, one if it recovered the lease and none if it gave up, if and
      only if no attempt was granted a lease and failed all the same. */
  lemma WatchersIff(attempts: nat -> Attempt, maxRetries: int, hasDieChan: bool, failed: nat,
                    ending: Ending, calls: nat, dieSignals: nat, watchers: nat)
    requires Renewal(attempts, maxRetries, hasDieChan, failed, ending, calls, dieSignals, watchers)
    ensures watchers == (if ending == Recovered then 1 else 0) <==> forall i :: 0 <= i < calls ==> !Leaves(attempts(i))
  {
    NoGrants(attempts, calls - 1);
    NoGrants(attempts, calls);
  }

  /** A first attempt whose bootstrap fails and a second that succeeds: the lease is recovered with two watchers on
      it. */
  lemma TwoWatchers(hasDieChan: bool)
    ensures var attempts := (i: nat) => if i == 0 then BootstrapFailed else Renewed;
            Renewal(attempts, 2, hasDieChan, 0, Recovered, 2, 0, 2)
  {
    var attempts := (i: nat) => if i == 0 then BootstrapFailed else Renewed;
    assert Grants(attempts, 1) == Grants(attempts, 0) + 1;
  }

  /** An attempt that times out after the grant: the application is told to die and a new watcher is running. */
  lemma WatcherOfTheDead()
    ensures var attempts := (i: nat) => TimedOut(true);
            Renewal(attempts, 2, true, 0, Died, 1, 1, 1)
  {
    var attempts := (i: nat) => TimedOut(true);
    assert Grants(attempts, 1) == Grants(attempts, 0) + 1;
  }
}
