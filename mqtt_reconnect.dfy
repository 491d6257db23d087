/**
  The broker reconnect loop of the garage door firmware (connectToMqtt).
  The outcome of each connect attempt, which the firmware gets from the
  MQTT client library, is supplied as an oracle sequence.
 */
module MqttReconnect {
  /** The initial value of the retry counter. */
  const RETRY_BUDGET: nat := 20

  /**
    The counter is decremented before each attempt and the loop stops when
    it reaches 0, so the budget of 20 buys 19 attempts.
   */
  const MAX_ATTEMPTS: nat := RETRY_BUDGET - 1

  /** The pause after every failed attempt. */
  const RETRY_DELAY_MS: nat := 2000

  /** The number of failed attempts among the given outcomes. */
  function Failures(outcomes: seq<bool>): nat
    decreases |outcomes|
  {
    if outcomes == [] then 0
    else Failures(outcomes[..|outcomes| - 1]) + (if outcomes[|outcomes| - 1] then 0 else 1)
  }

  lemma {:induction false} FailuresAllFailed(outcomes: seq<bool>)
    requires forall i :: 0 <= i < |outcomes| ==> !outcomes[i]
    ensures Failures(outcomes) == |outcomes|
    decreases |outcomes|
  {
    if outcomes != [] {
      FailuresAllFailed(outcomes[..|outcomes| - 1]);
    }
  }

  lemma {:induction false} FailuresAllButLast(outcomes: seq<bool>)
    requires |outcomes| > 0 && outcomes[|outcomes| - 1]
    requires forall i :: 0 <= i < |outcomes| - 1 ==> !outcomes[i]
    ensures Failures(outcomes) == |outcomes| - 1
  {
    FailuresAllFailed(outcomes[..|outcomes| - 1]);
  }

  /**
    connectToMqtt: while the client is not connected and the pre-decremented
    counter is nonzero, attempt to connect; pause after a failure; report
    failure when the counter has reached 0. outcomes[k] is whether attempt
    k + 1 succeeds; alreadyConnected is what connected() answers on entry.
   */
  method ConnectToMqtt(alreadyConnected: bool, outcomes: seq<bool>)
      returns (attempts: nat, delayMs: nat, connected: bool, failureReported: bool)
    requires |outcomes| >= MAX_ATTEMPTS
    ensures attempts <= MAX_ATTEMPTS
    ensures alreadyConnected ==> attempts == 0 && connected
    ensures forall k :: 0 <= k < attempts - 1 ==> !outcomes[k]
    ensures connected <==> alreadyConnected || (attempts > 0 && outcomes[attempts - 1])
    ensures !connected ==> attempts == MAX_ATTEMPTS
    ensures delayMs == RETRY_DELAY_MS * Failures(outcomes[..attempts])
    ensures !connected ==> delayMs == MAX_ATTEMPTS * RETRY_DELAY_MS
    ensures connected && !alreadyConnected ==> delayMs == (attempts - 1) * RETRY_DELAY_MS
    ensures failureReported <==> !connected
    ensures failureReported <==> !alreadyConnected && forall k :: 0 <= k < MAX_ATTEMPTS ==> !outcomes[k]
  {
    var retry: int := RETRY_BUDGET;
    attempts, delayMs, connected := 0, 0, alreadyConnected;
    while true
      invariant 1 <= retry <= RETRY_BUDGET
      invariant attempts == RETRY_BUDGET - retry
      invariant alreadyConnected ==> attempts == 0 && connected
      invariant !connected ==> forall k :: 0 <= k < attempts ==> !outcomes[k]
      invariant connected && !alreadyConnected ==>
                  attempts > 0 && outcomes[attempts - 1] && forall k :: 0 <= k < attempts - 1 ==> !outcomes[k]
      invariant delayMs == RETRY_DELAY_MS * Failures(outcomes[..attempts])
      decreases retry
    {
      if connected {
        break;
      }
      retry := retry - 1;
      if retry == 0 {
        break;
      }
      var ok := outcomes[attempts];
      assert outcomes[..attempts + 1][..attempts] == outcomes[..attempts];
      attempts := attempts + 1;
      if ok {
        connected := true;
      } else {
        delayMs := delayMs + RETRY_DELAY_MS;
      }
    }
    failureReported := retry == 0;
    if !connected {
      FailuresAllFailed(outcomes[..attempts]);
    } else if !alreadyConnected {
      FailuresAllButLast(outcomes[..attempts]);
    }
  }
}
