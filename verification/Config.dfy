/**
 Filling in and validating a parsed configuration (`LoadConfig`, after the YAML has been read), and
 what the running components can and cannot rely on afterwards.  Durations are in nanoseconds.
 */
module Config {
  import opened Options
  import Workers

  const SECOND: int := 1_000_000_000

  datatype CheckConfig = CheckConfig(name: string, kind: string, target: string, resolver: string,
                                     interval: int, timeout: int, holdFor: int, logPath: string)

  datatype Problem = UnknownType | TargetRequired | ResolverRequired | LogPathRequired

  datatype ConfigError = NoChecks | BadCheck(index: nat, problem: Problem)

  const KINDS := ["gateway_ping", "internet_ping", "tcp443", "dns_a", "tls", "tls_resume",
                  "holdopen", "host_health", "log_tail", "proxy_detect", "service_status"]

  const TARGETLESS := ["gateway_ping", "host_health", "log_tail", "proxy_detect"]

  function Defaulted(x: int, d: int): int {
    if x == 0 then d else x
  }

  /** The first rule that a check breaks, in the order in which they are tried. */
  function ProblemOf(c: CheckConfig): Option<Problem> {
    if c.kind !in KINDS then Some(UnknownType)
    else if c.kind !in TARGETLESS && c.target == "" then Some(TargetRequired)
    else if c.kind == "dns_a" && c.resolver == "" then Some(ResolverRequired)
    else if c.kind == "log_tail" && c.logPath == "" then Some(LogPathRequired)
    else None
  }

  /** The rules, one by one: a known type; a target for all types but four; a resolver for a DNS check;
      a path for a log tail.  A check that breaks several is refused for the first. */
  lemma RulesAre(c: CheckConfig)
    ensures var known := c.kind in {"gateway_ping", "internet_ping", "tcp443", "dns_a", "tls", "tls_resume",
                                    "holdopen", "host_health", "log_tail", "proxy_detect", "service_status"};
            var aimless := c.kind in {"gateway_ping", "host_health", "log_tail", "proxy_detect"};
            && (ProblemOf(c) == Some(UnknownType) <==> !known)
            && (ProblemOf(c) == Some(TargetRequired) <==> known && !aimless && c.target == "")
            && (ProblemOf(c) == Some(ResolverRequired) <==> c.kind == "dns_a" && c.target != "" && c.resolver == "")
            && (ProblemOf(c) == Some(LogPathRequired) <==> c.kind == "log_tail" && c.logPath == "")
  {
  }

  function EffectiveName(c: CheckConfig): string {
    if c.name == "" then c.kind + ":" + c.target else c.name
  }

  function Filled(c: CheckConfig, interval: int, timeout: int): CheckConfig {
    c.(interval := Defaulted(c.interval, interval),
       timeout := Defaulted(c.timeout, timeout),
       holdFor := if c.kind == "holdopen" then Defaulted(c.holdFor, 240 * SECOND) else c.holdFor,
       name := EffectiveName(c))
  }

  /** What filling sets, field by field. */
  lemma FilledIs(c: CheckConfig, interval: int, timeout: int)
    ensures Filled(c, interval, timeout)
         == c.(interval := if c.interval == 0 then interval else c.interval,
               timeout := if c.timeout == 0 then timeout else c.timeout,
               holdFor := if c.kind == "holdopen" && c.holdFor == 0 then 240_000_000_000 else c.holdFor,
               name := if c.name == "" then c.kind + ":" + c.target else c.name)
  {
  }

  class Config {
    var logMaxSizeMB: int
    var logMaxBackups: int
    var logMaxAgeDays: int
    var logMinFreeDiskMB: int
    var defaultInterval: int
    var defaultTimeout: int
    var pingCount: int
    var checks: seq<CheckConfig>

    /** A parsed configuration file; settings it leaves out are zero. */
    constructor (sizes: (int, int, int, int), interval: int, timeout: int, pings: int, checks: seq<CheckConfig>)
      ensures (logMaxSizeMB, logMaxBackups, logMaxAgeDays, logMinFreeDiskMB) == sizes
      ensures defaultInterval == interval && defaultTimeout == timeout && pingCount == pings
      ensures this.checks == checks
    {
      logMaxSizeMB, logMaxBackups, logMaxAgeDays, logMinFreeDiskMB := sizes.0, sizes.1, sizes.2, sizes.3;
      defaultInterval, defaultTimeout, pingCount := interval, timeout, pings;
      this.checks := checks;
    }

    /** Fills the zero settings, then checks and fills each check in turn.  It fails at the first
        check that breaks a rule, naming the first rule broken, or when there are no checks. */
    method Complete() returns (err: Option<ConfigError>)
      modifies this
      ensures logMaxSizeMB == (if old(logMaxSizeMB) == 0 then 500 else old(logMaxSizeMB))
      ensures logMaxBackups == (if old(logMaxBackups) == 0 then 9 else old(logMaxBackups))
      ensures logMaxAgeDays == (if old(logMaxAgeDays) == 0 then 7 else old(logMaxAgeDays))
      ensures logMinFreeDiskMB == (if old(logMinFreeDiskMB) == 0 then 5120 else old(logMinFreeDiskMB))
      ensures defaultInterval == (if old(defaultInterval) == 0 then 60_000_000_000 else old(defaultInterval))
      ensures defaultTimeout == (if old(defaultTimeout) == 0 then 5_000_000_000 else old(defaultTimeout))
      ensures pingCount == (if old(pingCount) == 0 then 3 else old(pingCount))
      ensures err.None? <==> old(checks) != [] && forall c | c in old(checks) :: ProblemOf(c).None?
      ensures err == Some(NoChecks) <==> old(checks) == []
      ensures err.Some? && err.value.BadCheck? ==>
                && var k := err.value.index;
                && k < |old(checks)|
                && ProblemOf(old(checks)[k]) == Some(err.value.problem)
                && forall j | 0 <= j < k :: ProblemOf(old(checks)[j]).None?
      ensures err.None? ==>
                && |checks| == |old(checks)|
                && forall k | 0 <= k < |checks| ::
                     checks[k] == Filled(old(checks)[k], defaultInterval, defaultTimeout)
    {
      logMaxSizeMB := Defaulted(logMaxSizeMB, 500);
      logMaxBackups := Defaulted(logMaxBackups, 9);
      logMaxAgeDays := Defaulted(logMaxAgeDays, 7);
      logMinFreeDiskMB := Defaulted(logMinFreeDiskMB, 5120);
      defaultInterval := Defaulted(defaultInterval, 60 * SECOND);
      defaultTimeout := Defaulted(defaultTimeout, 5 * SECOND);
      pingCount := Defaulted(pingCount, 3);
      for i := 0 to |checks|
        invariant |checks| == |old(checks)|
        invariant forall k | 0 <= k < i :: ProblemOf(old(checks)[k]).None?
        invariant forall k | 0 <= k < i ::
                    checks[k] == Filled(old(checks)[k], defaultInterval, defaultTimeout)
        invariant forall k | i <= k < |checks| :: checks[k] == old(checks)[k]
        modifies this`checks
      {
        hide ProblemOf, Filled, EffectiveName;
        var problem := ProblemOf(checks[i]);
        if problem.Some? {
          assert old(checks)[i] in old(checks);
          return Some(BadCheck(i, problem.value));
        }
        checks := checks[i := Filled(checks[i], defaultInterval, defaultTimeout)];
      }
      if |checks| == 0 { return Some(NoChecks); }
      return None;
    }
  }

  /** Loading is idempotent: a completed check passes again and is not changed by other defaults. */
  lemma FilledIsStable(c: CheckConfig, interval: int, timeout: int, interval': int, timeout': int)
    requires ProblemOf(c).None? && interval != 0 && timeout != 0
    ensures var f := Filled(c, interval, timeout);
            && ProblemOf(f).None?
            && f.name != "" && f.interval != 0 && f.timeout != 0
            && (f.kind == "holdopen" ==> f.holdFor != 0)
            && Filled(f, interval', timeout') == f
  {
    assert (c.kind + ":" + c.target)[|c.kind|] == ':';
  }

  function Intervals(checks: seq<CheckConfig>): seq<int> {
    seq(|checks|, k requires 0 <= k < |checks| => checks[k].interval)
  }

  function Completed(checks: seq<CheckConfig>, interval: int, timeout: int): seq<CheckConfig> {
    seq(|checks|, k requires 0 <= k < |checks| => Filled(checks[k], interval, timeout))
  }

  /** Loading does not make every ticker safe: the intervals are all positive exactly when no
      configured one is negative and none falls back to a negative default. */
  lemma TickersSafeIff(checks: seq<CheckConfig>, configured: int, timeout: int)
    ensures var loaded := Completed(checks, Defaulted(configured, 60 * SECOND), timeout);
            Workers.PlanOk(Workers.Plan(false, Intervals(loaded)))
            <==> forall c | c in checks :: c.interval > 0 || (c.interval == 0 && configured >= 0)
  {
    var d := Defaulted(configured, 60 * SECOND);
    var ivs := Intervals(Completed(checks, d, timeout));
    assert forall k | 0 <= k < |checks| :: ivs[k] == Defaulted(checks[k].interval, d);
    if Workers.PlanOk(Workers.Plan(false, ivs)) {
      forall c | c in checks ensures c.interval > 0 || (c.interval == 0 && configured >= 0) {
        var k :| 0 <= k < |checks| && checks[k] == c;
        assert ivs[k] > 0;
      }
    } else {
      var k :| 0 <= k < |ivs| && ivs[k] <= 0;
      assert checks[k] in checks;
    }
  }
}
