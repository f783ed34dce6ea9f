/**
 What a loaded configuration means for its log_tail checks, whose cursors are keyed by name.
 */
module TailConfig {
  import opened Config
  import opened Options
  import Lines
  import LogTail
  import TailProtocol
  import TailSystem
  import TailFiles
  import TailNames

  function Tails(checks: seq<CheckConfig>): seq<CheckConfig> {
    if checks == [] then []
    else
      var c := checks[|checks| - 1];
      Tails(checks[..|checks| - 1]) + if c.kind == "log_tail" then [c] else []
  }

  /** The keys under which the log_tail checks find their cursors. */
  function Keys(checks: seq<CheckConfig>): (keys: seq<string>)
    ensures |keys| == |Tails(checks)|
  {
    var ts := Tails(checks);
    seq(|ts|, k requires 0 <= k < |ts| => ts[k].name)
  }

  /** The files that a log path can lead to: itself, or, for a glob, whatever it can match. */
  ghost function MayOpen(c: CheckConfig, matches: string -> iset<string>): iset<string> {
    if LogTail.HasGlobMeta(c.logPath) then matches(c.logPath) else iset{c.logPath}
  }

  ghost function Files(checks: seq<CheckConfig>, matches: string -> iset<string>): (files: seq<iset<string>>)
    ensures |files| == |Tails(checks)|
  {
    var ts := Tails(checks);
    seq(|ts|, k requires 0 <= k < |ts| => MayOpen(ts[k], matches))
  }

  // ----- what a configuration file says about pairs of its log_tail checks

  ghost predicate NoTailPair(checks: seq<CheckConfig>, bad: (CheckConfig, CheckConfig) -> bool) {
    forall i, j | 0 <= i < j < |checks| && checks[i].kind == checks[j].kind == "log_tail" ::
      !bad(checks[i], checks[j])
  }

  /** Two checks get the same name, be it given or made up from the target. */
  predicate SameName(a: CheckConfig, b: CheckConfig) {
    EffectiveName(a) == EffectiveName(b)
  }

  /** Two checks get the same name, and their log paths can lead to the same file. */
  ghost predicate Collide(a: CheckConfig, b: CheckConfig, matches: string -> iset<string>) {
    SameName(a, b) && !(MayOpen(a, matches) !! MayOpen(b, matches))
  }

  ghost predicate NoPair(ts: seq<CheckConfig>, bad: (CheckConfig, CheckConfig) -> bool) {
    forall i, j | 0 <= i < j < |ts| :: !bad(ts[i], ts[j])
  }

  lemma {:induction false} TailsAre(checks: seq<CheckConfig>, bad: (CheckConfig, CheckConfig) -> bool)
    ensures forall c :: c in Tails(checks) <==> c in checks && c.kind == "log_tail"
    ensures NoPair(Tails(checks), bad) <==> NoTailPair(checks, bad)
  {
    if checks != [] {
      var n := |checks| - 1;
      var c := checks[n];
      assert checks == checks[..n] + [c];
      TailsAre(checks[..n], bad);
      NoTailPairOneMore(checks[..n], c, bad);
      NoPairOneMore(Tails(checks[..n]), c, bad);
      assert Tails(checks[..n]) + [] == Tails(checks[..n]);
      hide NoTailPair, NoPair;
    }
  }

  lemma NoTailPairOneMore(checks: seq<CheckConfig>, c: CheckConfig, bad: (CheckConfig, CheckConfig) -> bool)
    ensures NoTailPair(checks + [c], bad)
       <==> NoTailPair(checks, bad)
            && forall b | b in checks && b.kind == c.kind == "log_tail" :: !bad(b, c)
  {
    var more := checks + [c];
    if NoTailPair(more, bad) {
      assert forall i | 0 <= i < |checks| :: more[i] == checks[i];
      assert more[|checks|] == c;
    }
  }

  lemma NoPairOneMore(ts: seq<CheckConfig>, c: CheckConfig, bad: (CheckConfig, CheckConfig) -> bool)
    ensures NoPair(ts + [c], bad) <==> NoPair(ts, bad) && forall b | b in ts :: !bad(b, c)
  {
    var more := ts + [c];
    if NoPair(more, bad) {
      assert forall i | 0 <= i < |ts| :: more[i] == ts[i];
      assert more[|ts|] == c;
    }
  }

  lemma {:induction false} TailsOfLoaded(checks: seq<CheckConfig>, interval: int, timeout: int)
    ensures Tails(Completed(checks, interval, timeout)) == Completed(Tails(checks), interval, timeout)
  {
    if checks != [] {
      var n := |checks| - 1;
      TailsOfLoaded(checks[..n], interval, timeout);
      assert Completed(checks, interval, timeout)[..n] == Completed(checks[..n], interval, timeout);
    }
  }

  /** The keys and files of the loaded checks, from the configuration file. */
  ghost predicate KeyedBy(ts: seq<CheckConfig>, matches: string -> iset<string>,
                          keys: seq<string>, files: seq<iset<string>>) {
    && |keys| == |files| == |ts|
    && forall k | 0 <= k < |ts| :: keys[k] == EffectiveName(ts[k]) && files[k] == MayOpen(ts[k], matches)
  }

  lemma LoadedKeys(checks: seq<CheckConfig>, interval: int, timeout: int, matches: string -> iset<string>)
    ensures var loaded := Completed(checks, interval, timeout);
            KeyedBy(Tails(checks), matches, Keys(loaded), Files(loaded, matches))
  {
    hide Tails, EffectiveName;
    TailsOfLoaded(checks, interval, timeout);
  }

  lemma DistinctKeys(ts: seq<CheckConfig>, matches: string -> iset<string>,
                     keys: seq<string>, files: seq<iset<string>>)
    requires KeyedBy(ts, matches, keys, files)
    ensures TailSystem.Distinct(keys) <==> NoPair(ts, SameName)
    ensures TailFiles.Apart(keys, files) <==> NoPair(ts, (a, b) => Collide(a, b, matches))
  {
    hide EffectiveName, MayOpen;
    var collide := (a, b) => Collide(a, b, matches);
    forall i, j | 0 <= i < j < |ts|
      ensures SameName(ts[i], ts[j]) <==> keys[i] == keys[j]
      ensures collide(ts[i], ts[j]) <==> keys[i] == keys[j] && !(files[i] !! files[j])
    {
    }
  }

  /** Loading does not make names unique, and what that costs is exact.  For any configuration, in
      every run every log_tail check is given every written byte at most once if and only if no two
      of them get one name while their log paths can lead to one file. */
  lemma TailsOnceIff(checks: seq<CheckConfig>, interval: int, timeout: int, matches: string -> iset<string>,
                     d: TailProtocol.Disk)
    requires TailProtocol.DiskOk(d)
    ensures var loaded := Completed(checks, interval, timeout);
            var keys, files := Keys(loaded), Files(loaded, matches);
            NoTailPair(checks, (a, b) => Collide(a, b, matches)) <==>
              forall evs: seq<TailSystem.Event>, i: nat
                | i < |keys| && TailSystem.Legal(keys, TailSystem.Start(keys, d), evs)
                  && TailFiles.Confined(files, evs) ::
                TailProtocol.NoDup(TailFiles.DeliveredTo(keys, d, evs, i))
  {
    hide *;
    var loaded := Completed(checks, interval, timeout);
    var keys, files := Keys(loaded), Files(loaded, matches);
    LoadedKeys(checks, interval, timeout, matches);
    DistinctKeys(Tails(checks), matches, keys, files);
    TailsAre(checks, (a, b) => Collide(a, b, matches));
    TailNames.AtMostOnceIff(keys, files, d);
  }

  /** And in every run every log_tail check behaves as it would alone if and only if no two of them
      get one name, whatever their log paths, provided that every glob can match something. */
  lemma TailsIndependentIff(checks: seq<CheckConfig>, interval: int, timeout: int, matches: string -> iset<string>,
                            d: TailProtocol.Disk)
    requires forall pattern | LogTail.HasGlobMeta(pattern) :: matches(pattern) != iset{}
    ensures var loaded := Completed(checks, interval, timeout);
            var keys, files := Keys(loaded), Files(loaded, matches);
            NoTailPair(checks, SameName) <==>
              forall evs: seq<TailSystem.Event>, i: nat
                | i < |keys| && TailSystem.Legal(keys, TailSystem.Start(keys, d), evs)
                  && TailFiles.Confined(files, evs) ::
                TailNames.OnItsOwn(keys, d, evs, i)
  {
    hide *;
    var loaded := Completed(checks, interval, timeout);
    var keys, files := Keys(loaded), Files(loaded, matches);
    LoadedKeys(checks, interval, timeout, matches);
    DistinctKeys(Tails(checks), matches, keys, files);
    TailsAre(checks, SameName);
    forall k | 0 <= k < |files| ensures files[k] != iset{} {
      CanOpenSome(Tails(checks), matches, keys, files, k);
    }
    TailNames.IndependentIff(keys, files, d);
  }

  lemma CanOpenSome(ts: seq<CheckConfig>, matches: string -> iset<string>,
                    keys: seq<string>, files: seq<iset<string>>, k: nat)
    requires forall pattern | LogTail.HasGlobMeta(pattern) :: matches(pattern) != iset{}
    requires KeyedBy(ts, matches, keys, files) && k < |files|
    ensures files[k] != iset{}
  {
    if !LogTail.HasGlobMeta(ts[k].logPath) {
      assert ts[k].logPath in MayOpen(ts[k], matches);
    }
  }

  /** Two unnamed log_tail checks without targets get one name.  On different files they then starve
      each other: taking turns they report success for ever and scan nothing. */
  lemma UnnamedTailsStarve(a: CheckConfig, b: CheckConfig, interval: int, timeout: int,
                           oses: seq<LogTail.Os>, hit: Lines.Line -> bool)
    requires a.kind == b.kind == "log_tail" && a.name == b.name == "" && a.target == b.target
    requires ProblemOf(a).None? && ProblemOf(b).None? && a.logPath != b.logPath
    requires forall k | 0 <= k < |oses| ::
               TailNames.Answers(oses[k], if k % 2 == 0 then a.logPath else b.logPath)
    ensures Filled(a, interval, timeout).name == Filled(b, interval, timeout).name
    ensures forall r | r in TailNames.SharedTicks(None, oses, hit) ::
              r.outcome.BaselineAt? && r.success
  {
    TailNames.SharedNameNeverScans(None, oses, a.logPath, b.logPath, hit);
  }
}
