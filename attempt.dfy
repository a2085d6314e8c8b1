/**
  One connection attempt (`test_network_with_password`) and the association poll
  (`wait_for_connection`). Disconnecting, installing the profile, connecting, reading the
  interface state and probing are outside the model: their outcomes are given. Sleeps are
  returned as the list of durations, in seconds, the routine waits.
 */
module Attempt {
  import opened Wrappers
  import opened Netsh
  import opened Prober

  /** What the outside world answers during one attempt. */
  datatype AttemptEnv = AttemptEnv(
    connects: bool,               // the connect routine raised nothing (it then reports success)
    interfaces: CommandResult,    // the interface listing read after the 10-second wait
    rounds: nat -> ProbeInputs)   // what internet check number n (1, 2, 3) sees

  /** The adapter reports being associated with `ssid`. */
  predicate Associated(ssid: string, env: AttemptEnv)
  {
    CurrentConnection(env.interfaces) == Some(ssid)
  }

  /** Internet check number `n` of the attempt reports internet. */
  predicate RoundOnline(env: AttemptEnv, n: nat)
  {
    CheckInternet(env.rounds(n)).online
  }

  /** An attempt succeeds: the connect request went through, the adapter is associated with the
      target, and one of the three internet checks passes. */
  predicate Succeeds(ssid: string, env: AttemptEnv)
  {
    env.connects && Associated(ssid, env) && exists n :: 1 <= n <= 3 && RoundOnline(env, n)
  }

  /** `wait_for_connection`: polls the association up to `timeout` times, one second apart,
      and stops at the first poll that reports `ssid`. Poll `i` reads `polls(i)`. */
  method WaitForConnection(ssid: string, timeout: int, polls: nat -> CommandResult)
    returns (ok: bool, count: nat, slept: nat)
    ensures count <= if timeout < 0 then 0 else timeout
    ensures ok <==> exists i: nat :: i < timeout && CurrentConnection(polls(i)) == Some(ssid)
    ensures ok ==> count >= 1 && CurrentConnection(polls(count - 1)) == Some(ssid)
    ensures forall i: nat :: i < count - 1 ==> CurrentConnection(polls(i)) != Some(ssid)
    ensures !ok ==> count == if timeout < 0 then 0 else timeout
    ensures slept == if ok then count - 1 else count
  {
    count, slept := 0, 0;
    while count < timeout
      invariant count <= if timeout < 0 then 0 else timeout
      invariant slept == count
      invariant forall i: nat :: i < count ==> CurrentConnection(polls(i)) != Some(ssid)
    {
      var current := CurrentConnection(polls(count));
      count := count + 1;
      if current == Some(ssid) {
        return true, count, slept;
      }
      slept := slept + 1;
    }
    ok := false;
  }

  /** `test_network_with_password`. It fails without probing when the connect request fails or
      the adapter is then not associated with `ssid`; otherwise it runs internet checks 1, 2, 3
      until one passes, waiting `5 * n` seconds after a failed check `n` when another follows.
      `waits` lists the routine's sleeps: 3 after disconnecting, 10 before reading the
      association, 5 before the first check, then the backoffs. */
  method TestNetworkWithPassword(ssid: string, password: string, attemptNum: int, env: AttemptEnv)
    returns (ok: bool, probes: nat, waits: seq<nat>)
    ensures ok == Succeeds(ssid, env)
    ensures !env.connects ==> probes == 0 && waits == [3]
    ensures env.connects && !Associated(ssid, env) ==> probes == 0 && waits == [3, 10]
    ensures env.connects && Associated(ssid, env) ==>
      1 <= probes <= 3 &&
      (forall n :: 1 <= n < probes ==> !RoundOnline(env, n)) &&
      (ok <==> RoundOnline(env, probes)) &&
      (!ok ==> probes == 3) &&
      waits == [3, 10, 5] + [5, 10][..probes - 1]
  {
    waits := [3];
    if !env.connects {
      return false, 0, waits;
    }
    waits := waits + [10];
    var current := CurrentConnection(env.interfaces);
    if current != Some(ssid) {
      return false, 0, waits;
    }
    waits := waits + [5];
    for checkNum := 1 to 4
      invariant forall n :: 1 <= n < checkNum ==> !RoundOnline(env, n)
      invariant waits == [3, 10, 5] + if checkNum <= 3 then [5, 10][..checkNum - 1] else [5, 10]
    {
      if CheckInternet(env.rounds(checkNum)).online {
        assert RoundOnline(env, checkNum);
        return true, checkNum, waits;
      }
      if checkNum < 3 {
        waits := waits + [checkNum * 5];
      }
    }
    return false, 3, waits;
  }

  /** The sum of a list of durations. */
  function Total(ws: seq<nat>): nat
  {
    if ws == [] then 0 else ws[0] + Total(ws[1..])
  }

  /** After the three fixed sleeps, the waits of an attempt that probed are the backoffs: the
      `n`-th lasts `5 * n` seconds, there are at most two, and they add up to at most 15 seconds. */
  lemma BackoffBounded(probes: nat, waits: seq<nat>)
    requires 1 <= probes <= 3 && waits == [3, 10, 5] + [5, 10][..probes - 1]
    ensures |waits| <= 5 && forall i :: 3 <= i < |waits| ==> waits[i] == 5 * (i - 2)
    ensures Total(waits[3..]) <= 15
  {
    var backoff := waits[3..];
    assert backoff == [5, 10][..probes - 1];
    if probes == 3 {
      assert backoff == [5, 10] && backoff[1..] == [10] && [10][1..] == [];
    } else if probes == 2 {
      assert backoff == [5] && backoff[1..] == [];
    }
  }
}
