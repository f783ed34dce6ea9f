/** The logger object (`Logger.Write`): stamps a record, appends it to the log file unless the disk
    guard says no, and always prints its status line. */
module Logger {
  import opened Options
  import opened Lines
  import opened DiskGuard
  import opened Console

  datatype Result = Result(timestamp: string, host: string, check: string, kind: string,
                           target: string, success: bool, detail: string, error: string,
                           extra: map<string, string>, tags: seq<string>)

  const TENANT := "tenant_id"

  /** What every record carries when it is written. */
  function Stamp(r: Result, at: string, host: string, tenant: string): Result {
    r.(timestamp := if r.timestamp == "" then at else r.timestamp,
       host := if r.host == "" then host else r.host,
       extra := if tenant == "" then r.extra else r.extra[TENANT := tenant])
  }

  /** The part of a record that reaches the file: all of it, or what a failing write managed. */
  function Landed(b: seq<byte>, fault: Option<nat>): seq<byte> {
    if fault.Some? && fault.value <= |b| then b[..fault.value] else b
  }

  lemma LandedIs(b: seq<byte>, fault: Option<nat>)
    ensures Landed(b + [LF], fault) == if fault.Some? && fault.value <= |b| then b[..fault.value] else b + [LF]
  {
  }

  lemma StampIs(r: Result, at: string, host: string, tenant: string)
    ensures Stamp(r, at, host, tenant)
         == r.(timestamp := if r.timestamp == "" then at else r.timestamp,
               host := if r.host == "" then host else r.host,
               extra := if tenant == "" then r.extra else r.extra["tenant_id" := tenant])
  {
  }

  class Logger {
    const minFreeMB: nat
    const host: string
    const tenantID: string
    var file: seq<byte>
    var console: seq<Out<Result>>
    var lastCheck: Option<int>
    var diskFull: bool
    var lastWarnAt: Option<int>

    /** NewLogger, for a configured threshold, host name and tenant. */
    constructor (configured: int, host: string, tenantID: string)
      requires -U64 / 2 <= configured < U64 / 2
      ensures minFreeMB == Threshold(configured)
      ensures minFreeMB == if configured >= 0 then configured else configured + 0x1_0000_0000_0000_0000
      ensures this.host == (if host == "" then "unknown" else host) && this.tenantID == tenantID
      ensures file == [] && console == [] && CurrentGuard() == UNUSED
    {
      minFreeMB := configured % U64;
      this.host := if host == "" then "unknown" else host;
      this.tenantID := tenantID;
      file, console, lastCheck, diskFull, lastWarnAt := [], [], None, false, None;
    }

    function CurrentGuard(): Guard
      reads this`lastCheck, this`diskFull
    {
      Guard(lastCheck, diskFull)
    }

    /** diskHasRoom, called with the mutex held: the step of the guard that is `Ask`.  A zero threshold
        always gives room; within thirty seconds of a probe its decision stands; otherwise a probe is
        made, and gives room if it fails or finds enough.  A pause and a resumption are printed when
        they are found, and a failed probe ends a pause without a word. */
    method DiskHasRoom(now: int, probe: Probe) returns (room: bool)
      modifies this`lastCheck, this`diskFull, this`lastWarnAt, this`console
      ensures var o := Ask(minFreeMB, old(CurrentGuard()), now, probe);
              && room == o.room
              && CurrentGuard() == o.guard
              && console == old(console) + Messages(o.changes)
              && lastWarnAt == if o.changes == [Warn] then Some(now) else old(lastWarnAt)
      ensures minFreeMB == 0 ==> room && unchanged(this)
      ensures minFreeMB > 0 && old(lastCheck).Some? && now - old(lastCheck).value < 30_000_000_000 ==>
                room == !old(diskFull) && unchanged(this)
      ensures minFreeMB > 0 && (old(lastCheck).None? || now - old(lastCheck).value >= 30_000_000_000) ==>
                && lastCheck == Some(now) && diskFull == !room
                && (room <==> probe.ProbeError? || probe.mb >= minFreeMB)
                && console == old(console)
                     + (if !room && !old(diskFull) then [Message(Warn)]
                        else if room && old(diskFull) && probe.Free? then [Message(Info)]
                        else [])
                && lastWarnAt == if !room && !old(diskFull) then Some(now) else old(lastWarnAt)
    {
      ghost var o := Ask(minFreeMB, CurrentGuard(), now, probe);
      if o.changes != [] { OneMessage<Result>(o.changes[0]); }
      assert console + [] == console;
      if minFreeMB == 0 {
        return true;
      }
      if lastCheck.Some? && now - lastCheck.value < CACHE {
        return !diskFull;
      }
      lastCheck := Some(now);
      if probe.ProbeError? {
        diskFull := false;
        return true;
      }
      var full := probe.mb < minFreeMB;
      if full && !diskFull {
        console := console + [Message(Warn)];
        lastWarnAt := Some(now);
      } else if !full && diskFull {
        console := console + [Message(Info)];
      }
      diskFull := full;
      return !full;
    }

    /** Write: the record gets the time if it has none, the host if it has none, and the tenant if
        one is known.  If it then cannot be marshalled, that leaves one console line; otherwise it is
        appended whole, newline-terminated, exactly when the guard gives room, and its status line is
        printed either way. `fault` is how many bytes a failing write managed, if it fails. */
    method Write(r: Result, at: string, now: int, probe: Probe,
                 marshal: Result -> Option<seq<byte>>, fault: Option<nat>)
      modifies this
      ensures var stamped :=
                r.(timestamp := if r.timestamp == "" then at else r.timestamp,
                   host := if r.host == "" then host else r.host,
                   extra := if tenantID == "" then r.extra else r.extra["tenant_id" := tenantID]);
              match marshal(stamped)
              case None =>
                && file == old(file) && CurrentGuard() == old(CurrentGuard())
                && console == old(console) + [MarshalError]
              case Some(b) =>
                var o := Ask(minFreeMB, old(CurrentGuard()), now, probe);
                && CurrentGuard() == o.guard
                && file == old(file)
                     + (if !o.room then []
                        else if fault.Some? && fault.value <= |b| then b[..fault.value]
                        else b + [LF])
                && console == old(console) + Messages(o.changes)
                            + (if o.room && fault.Some? then [WriteError] else [])
                            + [Status(stamped)]
    {
      hide Ask, Messages, Printed, Landed, Stamp;
      var stamped := Stamp(r, at, host, tenantID);
      StampIs(r, at, host, tenantID);
      var m := marshal(stamped);
      if m.None? {
        console := console + [MarshalError];
        return;
      }
      var b := m.value + [LF];
      var room := DiskHasRoom(now, probe);
      if room {
        LandedIs(m.value, fault);
        file := file + Landed(b, fault);
        if fault.Some? {
          console := console + [WriteError];
        }
      }
      console := console + [Status(stamped)];
    }
  }

  /** What stamping does to a record, field by field: a time and a host only where there is none, the
      tenant under its own key when one is known, and nothing else; stamping again changes nothing. */
  lemma StampedRecord(r: Result, at: string, host: string, tenant: string)
    ensures var s := Stamp(r, at, host, tenant);
            && s.timestamp == (if r.timestamp == "" then at else r.timestamp)
            && s.host == (if r.host == "" then host else r.host)
            && (tenant == "" ==> s.extra == r.extra)
            && (tenant != "" ==> s.extra.Keys == r.extra.Keys + {"tenant_id"} && s.extra["tenant_id"] == tenant)
            && (forall k | k in r.extra && k != "tenant_id" :: k in s.extra && s.extra[k] == r.extra[k])
            && s.(timestamp := r.timestamp, host := r.host, extra := r.extra) == r
    ensures at != "" && host != "" ==>
              forall at', host' ::
                Stamp(Stamp(r, at, host, tenant), at', host', tenant) == Stamp(r, at, host, tenant)
  {
  }
}
