/** The bounded polling of `waitForIframeAndPrefill` and
    `waitForIframeAndLogin`. Each injected script is an `executeJavaScript`
    promise; how the k-th one ends (counting from 0) is given by a reply
    function, and the timers between attempts are left out. */
module Retry {

  const MaxReadyProbes: nat := 40
  const MaxFillAttempts: nat := 40
  const MaxLoginProbes: nat := 20

  /** How one `executeJavaScript` promise ends: resolved with a truthy value,
      resolved with a falsy value, or rejected. */
  datatype Reply = Truthy | Falsy | Rejected

  /** Readiness probes made, fill attempts made, and whether a fill succeeded. */
  datatype PrefillRun = PrefillRun(probes: nat, fills: nat, filled: bool)

  /** `waitForIframeAndPrefill`: probe readiness up to 40 times; once a probe
      says ready, run the prefill script up to 40 times until it reports success. */
  method WaitForIframeAndPrefill(probe: nat -> Reply, fill: nat -> Reply) returns (run: PrefillRun)
    ensures 1 <= run.probes <= MaxReadyProbes
    ensures forall k :: 0 <= k < run.probes - 1 ==> probe(k) != Truthy
    ensures run.probes < MaxReadyProbes ==> probe(run.probes - 1) == Truthy
    ensures run.fills > 0 <==> probe(run.probes - 1) == Truthy
    ensures run.fills <= MaxFillAttempts
    ensures forall k :: 0 <= k < run.fills - 1 ==> fill(k) != Truthy
    ensures run.filled <==> run.fills > 0 && fill(run.fills - 1) == Truthy
    ensures run.fills > 0 && !run.filled ==> run.fills == MaxFillAttempts
  {
    var attempts := 0;
    var ready := false;
    while true
      invariant 0 <= attempts < MaxReadyProbes
      invariant forall k :: 0 <= k < attempts ==> probe(k) != Truthy
      decreases MaxReadyProbes - attempts
    {
      attempts := attempts + 1;
      if probe(attempts - 1) == Truthy {
        ready := true;
        break;
      } else if attempts >= MaxReadyProbes {
        break;
      }
    }
    var fillAttempts := 0;
    var ok := false;
    if ready {
      while true
        invariant 0 <= fillAttempts < MaxFillAttempts
        invariant forall k :: 0 <= k < fillAttempts ==> fill(k) != Truthy
        decreases MaxFillAttempts - fillAttempts
      {
        fillAttempts := fillAttempts + 1;
        if fill(fillAttempts - 1) == Truthy {
          ok := true;
          break;
        } else if fillAttempts >= MaxFillAttempts {
          break;
        }
      }
    }
    run := PrefillRun(attempts, fillAttempts, ok);
  }

  /** `waitForIframeAndLogin`: probe the Main iframe up to 20 times and run
      the login script after the first probe that says ready. */
  method WaitForIframeAndLogin(probe: nat -> Reply) returns (probes: nat, loginRun: bool)
    ensures 1 <= probes <= MaxLoginProbes
    ensures forall k :: 0 <= k < probes - 1 ==> probe(k) != Truthy
    ensures loginRun <==> probe(probes - 1) == Truthy
    ensures probes < MaxLoginProbes ==> loginRun
  {
    probes := 0;
    loginRun := false;
    while true
      invariant 0 <= probes < MaxLoginProbes
      invariant forall k :: 0 <= k < probes ==> probe(k) != Truthy
      decreases MaxLoginProbes - probes
    {
      probes := probes + 1;
      if probe(probes - 1) == Truthy {
        loginRun := true;
        return;
      } else if probes >= MaxLoginProbes {
        return;
      }
    }
  }
}
