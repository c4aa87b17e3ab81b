/** The updater itself: the namespace's global state as the fields of one
    object, and its procedures as methods that update those fields in place
    (TacitDynDns.cpp:35-100 for the state, 119-447 for the procedures,
    490-495 for opening the log).  Each method is proved against the value
    model of the other modules. */
module DynDns {
  import opened Text
  import opened Config
  import opened Process
  import opened Logging
  import opened ProtocolClient
  import opened Resolver
  import opened Engine
  import opened State

  class Updater {
    /** StateFile, LogFile, Verbosity, IpLookup and Curl. */
    var env: Environment
    /** The list UpdateBlocks, in order. */
    var blocks: seq<UpdateBlock>
    /** LogNewDay. */
    var logNewDay: bool
    /** What has been written to the log file so far. */
    var log: seq<LogEntry>
    /** The update commands run so far, each as the position of the block
        it was run for, in order. */
    ghost var calls: seq<nat>

    /** The state before main runs: default environment, no blocks. */
    constructor ()
      ensures env == DefaultEnvironment && blocks == [] && !logNewDay && log == [] && calls == []
    {
      env := DefaultEnvironment;
      blocks := [];
      logNewDay := false;
      log := [];
      calls := [];
    }

    /** One guarded ttfPrintf/tfPrintf: the entry is written when the
        verbosity lets it through. */
    method Emit(e: LogEntry)
      modifies this`log
      ensures log == old(log) + Visible(env.verbosity, [e])
    {
      assert [e][..0] == [];
      if e.ShownAt(env.verbosity) {
        log := log + [e];
      }
    }

    // -------------------------------------------------------------------
    // Configuration (TacitDynDns.cpp:119-212)

    /** The entries of one `environment` block, in order. */
    method ParseEnvironmentBlock(entries: seq<Entry>)
      modifies this`env
      ensures env == ApplyEnv(old(env), entries)
    {
      var i := 0;
      while i < |entries|
        invariant 0 <= i <= |entries|
        invariant env == ApplyEnv(old(env), entries[..i])
      {
        assert entries[..i + 1][..i] == entries[..i];
        var e := entries[i];
        if e.key == "statefile" {
          env := env.(stateFile := e.value);
        } else if e.key == "logfile" {
          env := env.(logFile := e.value);
        } else if e.key == "verbosity" {
          if e.value == "none" {
            env := env.(verbosity := None);
          } else if e.value == "concise" {
            env := env.(verbosity := Concise);
          } else if e.value == "minimal" {
            env := env.(verbosity := Minimal);
          } else if e.value == "normal" {
            env := env.(verbosity := Normal);
          } else if e.value == "full" {
            env := env.(verbosity := Full);
          }
        } else if e.key == "iplookup" {
          env := env.(ipLookup := e.value);
        } else if e.key == "curl" {
          env := env.(curl := e.value);
        }
        i := i + 1;
      }
      assert entries[..i] == entries;
    }

    /** A new block from the defaults and the entries of one `update`
        block, appended to the list. */
    method ParseUpdateBlock(entries: seq<Entry>)
      modifies this`blocks
      ensures blocks == old(blocks) + [BlockFromEntries(entries)]
    {
      var update := DefaultBlock;
      var i := 0;
      while i < |entries|
        invariant 0 <= i <= |entries|
        invariant update == ApplyUpdate(DefaultBlock, entries[..i])
      {
        assert entries[..i + 1][..i] == entries[..i];
        var e := entries[i];
        if e.key == "domain" {
          update := update.(domain := e.value);
        } else if e.key == "service" {
          update := update.(service := e.value);
        } else if e.key == "record" {
          if e.value == "ipv6" || e.value == "AAAA" {
            update := update.(record := IPV6);
          }
        } else if e.key == "protocol" {
          if e.value == "http" {
            update := update.(protocol := HTTP);
          }
        } else if e.key == "username" {
          update := update.(username := e.value);
        } else if e.key == "password" {
          update := update.(password := e.value);
        } else if e.key == "mode" {
          if e.value == "always" {
            update := update.(mode := Always);
          }
        }
        i := i + 1;
      }
      assert entries[..i] == entries;
      blocks := blocks + [update];
    }

    /** The top-level blocks of the config file, in order; blocks of other
        kinds are skipped. */
    method ReadConfigFile(cfg: seq<ConfigBlock>)
      modifies this`env, this`blocks
      ensures env == ConfigEnvironment(old(env), cfg)
      ensures blocks == old(blocks) + ConfigUpdateBlocks(cfg)
    {
      var i := 0;
      while i < |cfg|
        invariant 0 <= i <= |cfg|
        invariant env == ConfigEnvironment(old(env), cfg[..i])
        invariant blocks == old(blocks) + ConfigUpdateBlocks(cfg[..i])
      {
        assert cfg[..i + 1][..i] == cfg[..i];
        var block := cfg[i];
        if block.kind == "environment" {
          ParseEnvironmentBlock(block.entries);
        } else if block.kind == "update" {
          ParseUpdateBlock(block.entries);
        }
        i := i + 1;
      }
      assert cfg[..i] == cfg;
    }

    /** TacitDynDns.cpp:491-495: the new-day test is only made when
        something is logged at all; the answers of the file system and the
        clock are parameters. */
    method OpenLog(logExists: bool, infoFound: bool, modificationTime: nat, now: nat)
      modifies this`logNewDay
      ensures logNewDay == if env.verbosity != None then IsLogNewDay(logExists, infoFound, modificationTime, now)
                           else old(logNewDay)
    {
      if env.verbosity.Rank() > None.Rank() {
        logNewDay := IsLogNewDay(logExists, infoFound, modificationTime, now);
      }
    }

    // -------------------------------------------------------------------
    // State file (TacitDynDns.cpp:215-237, 427-447)

    /** Every entry of the state file, in order, gives its address to every
        block with its domain and record type; without a state file nothing
        happens. */
    method ReadCurrentState(stateExists: bool, entries: seq<StateEntry>)
      modifies this`blocks
      ensures blocks == if stateExists then LoadedBlocks(old(blocks), entries) else old(blocks)
    {
      if !stateExists {
        return;
      }
      ghost var orig := blocks;
      var j := 0;
      while j < |entries|
        invariant 0 <= j <= |entries|
        invariant blocks == LoadedBlocks(orig, entries[..j])
      {
        var entry := entries[j];
        var domain := entry.domain;
        var record := if entry.tag == "ipv6" then IPV6 else IPV4;
        var ip := entry.ip;
        ghost var before := blocks;
        var k := 0;
        while k < |blocks|
          invariant 0 <= k <= |blocks| == |orig|
          invariant forall m :: 0 <= m < k ==>
            blocks[m] == if EntryMatches(entry, orig[m]) then before[m].(lastUpdateIP := ip) else before[m]
          invariant forall m :: k <= m < |blocks| ==> blocks[m] == before[m]
        {
          if blocks[k].domain == domain && blocks[k].record == record {
            blocks := blocks[k := blocks[k].(lastUpdateIP := ip)];
          }
          k := k + 1;
        }
        assert entries[..j + 1] == entries[..j] + [entry];
        forall m | 0 <= m < |orig|
          ensures blocks[m] == LoadedBlocks(orig, entries[..j + 1])[m]
        {
          if EntryMatches(entry, orig[m]) {
            LaterEntryWins(orig[m], entries[..j], entry);
          } else {
            OtherEntryIgnored(orig[m], entries[..j], entry);
          }
        }
        j := j + 1;
      }
      assert entries[..j] == entries;
    }

    /** The entries written to the state file, one per block with an
        address, each stamped with the clock reading taken for it. */
    method WriteCurrentState(clock: nat -> nat) returns (entries: seq<StateEntry>)
      ensures entries == SavedEntries(blocks, clock, |blocks|)
    {
      entries := [];
      var i := 0;
      while i < |blocks|
        invariant 0 <= i <= |blocks|
        invariant entries == SavedEntries(blocks, clock, i)
      {
        var block := blocks[i];
        if block.lastUpdateIP != "" {
          var absTime := clock(i);
          var tag := if block.record == IPV4 then "ipv4" else "ipv6";
          entries := entries + [StateEntry(absTime, block.domain, tag, block.lastUpdateIP)];
        }
        i := i + 1;
      }
    }

    // -------------------------------------------------------------------
    // Updating (TacitDynDns.cpp:240-424)

    /** RunCurl: build the command, run it (its reply is `server`'s answer
        for the block at position `call`), log command and reply at Full, and
        judge the reply. */
    method RunCurl(protocol: Protocol, username: string, password: string,
                   service: string, domain: string, ipaddr: string,
                   call: nat, server: CurlServer) returns (success: bool)
      modifies this`log, this`calls
      ensures calls == old(calls) + [call]
      ensures success == CurlSucceeded(server(call, CurlCommand(env.curl, protocol, username, password, service, domain, ipaddr)))
      ensures log == old(log) +
        Visible(env.verbosity, CurlEvents(CurlCommand(env.curl, protocol, username, password, service, domain, ipaddr),
                                          server(call, CurlCommand(env.curl, protocol, username, password, service, domain, ipaddr))))
    {
      var cmd := CurlCommand(env.curl, protocol, username, password, service, domain, ipaddr);
      var reply := server(call, cmd);
      calls := calls + [call];
      var result := CutAtLineEnd(reply.output);
      Emit(CurlCmd(cmd));
      Emit(CurlReply(reply.exitCode, result));
      AppendVisible(old(log), env.verbosity, [CurlCmd(cmd)], [CurlReply(reply.exitCode, result)]);
      assert [CurlCmd(cmd)] + [CurlReply(reply.exitCode, result)] == CurlEvents(cmd, reply);
      success := false;
      if reply.exitCode == 0 && (FindString(result, "good") != -1 || FindString(result, "nochg") != -1) {
        success := true;
      }
    }

    /** `numIPV4Blocks` / `numIPV6Blocks`. */
    method CountBlocks(record: Record) returns (n: nat)
      ensures n == CountRecords(blocks, record)
    {
      n := 0;
      var i := 0;
      while i < |blocks|
        invariant 0 <= i <= |blocks|
        invariant n == CountRecords(blocks[..i], record)
      {
        assert blocks[..i + 1][..i] == blocks[..i];
        if blocks[i].record == record {
          n := n + 1;
        }
        i := i + 1;
      }
      assert blocks[..i] == blocks;
    }

    /** RunCurl for one block and the outcome line. */
    method AttemptBlock(block: UpdateBlock, i: nat, record: Record, ip: string, server: CurlServer)
      returns (ok: bool)
      modifies this`log, this`calls
      ensures calls == old(calls) + [i]
      ensures ok == CurlSucceeded(server(i, BlockCommand(env.curl, block, ip)))
      ensures log == old(log) + Visible(env.verbosity, AttemptEvents(env.curl, block, i, record, ip, server))
    {
      ghost var cmd := BlockCommand(env.curl, block, ip);
      ghost var reply := server(i, cmd);
      ok := RunCurl(block.protocol, block.username, block.password, block.service, block.domain, ip, i, server);
      ghost var outcome := if ok then Updated(record, ip, block.domain) else UpdateFailed(record, ip, block.domain);
      if ok {
        Emit(Updated(record, ip, block.domain));
      } else {
        Emit(UpdateFailed(record, ip, block.domain));
      }
      AppendVisible(old(log), env.verbosity, CurlEvents(cmd, reply), [outcome]);
    }

    /** One block of the phase, TacitDynDns.cpp:294-317: a block of
        another family is passed over; one of this family is attempted or
        skipped, and updated in place when the update succeeded.  `orig` is
        the list as the phase found it. */
    method UpdateBlockAt(ghost orig: seq<UpdateBlock>, i: nat, record: Record, ip: string, force: bool,
                         server: CurlServer) returns (updated: bool)
      requires i < |orig| && IsValidAddress(record, ip)
      requires blocks == PhaseBlocksBelow(orig, i, record, ip, force, env.curl, server)
      modifies this`blocks, this`log, this`calls
      ensures blocks == PhaseBlocksBelow(orig, i + 1, record, ip, force, env.curl, server)
      ensures calls == old(calls) + (if Attempted(orig[i], record, ip, force) then [i] else [])
      ensures updated == Succeeded(orig, i, record, ip, force, env.curl, server)
      ensures log == old(log) + Visible(env.verbosity, BlockEvents(orig[i], i, record, ip, force, env.curl, server))
    {
      PhaseBlocksStep(orig, i, record, ip, force, env.curl, server);
      var block := blocks[i];
      assert block == orig[i];
      updated := false;
      if block.record != record {
        assert Visible(env.verbosity, []) == [];
        assert calls == old(calls) + [];
      } else if force || block.mode == Always || block.lastUpdateIP != ip {
        var ok := AttemptBlock(block, i, record, ip, server);
        if ok {
          blocks := blocks[i := block.(lastUpdateIP := ip)];
          updated := true;
        }
      } else {
        Emit(Skipped(record, ip, block.domain));
        assert calls == old(calls) + [];
      }
    }

    /** One turn of the phase's loop: block `i` is handled and the flag, the
        blocks and the log move from the first `i` blocks to the first
        `i + 1`.  `curl` and `v` are the configured Curl and Verbosity. */
    method PhaseStep(ghost orig: seq<UpdateBlock>, i: nat, record: Record, ip: string, force: bool,
                     server: CurlServer, ghost curl: string, ghost v: Verbosity, ghost log0: seq<LogEntry>,
                     ghost calls0: seq<nat>, anyBefore: bool) returns (anyUpdate: bool)
      requires i < |orig| && IsValidAddress(record, ip)
      requires env.curl == curl && env.verbosity == v
      requires blocks == PhaseBlocksBelow(orig, i, record, ip, force, curl, server)
      requires anyBefore == AnyUpdatedBelow(orig, i, record, ip, force, curl, server)
      requires log == log0 + Visible(v, PhaseEvents(orig, i, record, ip, force, curl, server))
      requires calls == calls0 + AttemptedBelow(orig, record, ip, force, i)
      modifies this`blocks, this`log, this`calls
      ensures blocks == PhaseBlocksBelow(orig, i + 1, record, ip, force, curl, server)
      ensures calls == calls0 + AttemptedBelow(orig, record, ip, force, i + 1)
      ensures anyUpdate == AnyUpdatedBelow(orig, i + 1, record, ip, force, curl, server)
      ensures log == log0 + Visible(v, PhaseEvents(orig, i + 1, record, ip, force, curl, server))
    {
      ghost var log1 := log;
      ghost var calls1 := calls;
      var updated := UpdateBlockAt(orig, i, record, ip, force, server);
      anyUpdate := anyBefore || updated;
      PhaseLogStep(log0, log1, log, v, orig, i, record, ip, force, curl, server);
      AttemptedStep(calls0, calls1, calls, orig, i, record, ip, force);
    }

    /** The loop over the blocks of a phase with a valid address
        (TacitDynDns.cpp:294-317 for IPv4, 341-364 for IPv6). */
    method UpdateFamilyBlocks(record: Record, ip: string, force: bool, server: CurlServer) returns (anyUpdate: bool)
      requires IsValidAddress(record, ip)
      modifies this`blocks, this`log, this`calls
      ensures blocks == PhaseBlocks(old(blocks), record, ip, force, env.curl, server)
      ensures calls == old(calls) + AttemptedBelow(old(blocks), record, ip, force, |old(blocks)|)
      ensures anyUpdate == AnyUpdated(old(blocks), record, ip, force, env.curl, server)
      ensures log == old(log) + Visible(env.verbosity, PhaseEvents(old(blocks), |old(blocks)|, record, ip, force, env.curl, server))
    {
      ghost var orig := blocks;
      ghost var curl := env.curl;
      ghost var v := env.verbosity;
      ghost var log0 := log;
      ghost var calls0 := calls;
      anyUpdate := false;
      assert Visible(v, []) == [];
      assert calls == calls0 + [];
      var i := 0;
      while i < |blocks|
        invariant 0 <= i <= |blocks| == |orig|
        invariant blocks == PhaseBlocksBelow(orig, i, record, ip, force, curl, server)
        invariant anyUpdate == AnyUpdatedBelow(orig, i, record, ip, force, curl, server)
        invariant log == log0 + Visible(v, PhaseEvents(orig, i, record, ip, force, curl, server))
        invariant calls == calls0 + AttemptedBelow(orig, record, ip, force, i)
      {
        anyUpdate := PhaseStep(orig, i, record, ip, force, server, curl, v, log0, calls0, anyUpdate);
        i := i + 1;
      }
      PhaseComplete(orig, record, ip, force, curl, server);
    }

    /** One family's phase (TacitDynDns.cpp:279-324 for IPv4, 326-371 for
        IPv6): with a valid address, every block of the family in list order
        is attempted or skipped; with an invalid one, a warning when the
        family has blocks. */
    method UpdateFamily(record: Record, ip: string, force: bool, server: CurlServer) returns (anyUpdate: bool)
      modifies this`blocks, this`log, this`calls
      ensures blocks == PhaseBlocks(old(blocks), record, ip, force, env.curl, server)
      ensures calls == old(calls) + AttemptedBelow(old(blocks), record, ip, force, |old(blocks)|)
      ensures anyUpdate == AnyUpdated(old(blocks), record, ip, force, env.curl, server)
      ensures log == old(log) + Visible(env.verbosity, FamilyEvents(old(blocks), record, ip, force, env.curl, server))
    {
      var numBlocks := CountBlocks(record);
      if IsValidAddress(record, ip) {
        Emit(Detected(record, ip));
        anyUpdate := UpdateFamilyBlocks(record, ip, force, server);
        AppendVisible(old(log), env.verbosity, [Detected(record, ip)],
                      PhaseEvents(old(blocks), |old(blocks)|, record, ip, force, env.curl, server));
      } else {
        anyUpdate := false;
        InvalidAddressGating(blocks, record, ip, force, env.curl, server);
        assert calls == old(calls) + [];
        if numBlocks > 0 {
          Emit(NoValidAddress(record, numBlocks));
        } else {
          assert Visible(env.verbosity, []) == [];
        }
      }
    }

    /** The address selection of TacitDynDns.cpp:246-277: the last override
        of each family, noted in the log, or else the fetched reply up to its
        first line end. */
    method ResolveAddresses(overrides: seq<string>, fetchIPV4: ProcessResult, fetchIPV6: ProcessResult)
      returns (ipv4: string, ipv6: string)
      modifies this`log
      ensures ipv4 == ResolvedAddress(LastOverride(overrides, IPV4), fetchIPV4)
      ensures ipv6 == ResolvedAddress(LastOverride(overrides, IPV6), fetchIPV6)
      ensures log == old(log) + Visible(env.verbosity,
        OverrideEvents(IPV4, LastOverride(overrides, IPV4)) + OverrideEvents(IPV6, LastOverride(overrides, IPV6)))
    {
      ipv4, ipv6 := SelectOverrides(overrides);
      ghost var o4 := OverrideEvents(IPV4, ipv4);
      ghost var o6 := OverrideEvents(IPV6, ipv6);
      if ipv4 == "" {
        ipv4 := CutAtLineEnd(fetchIPV4.output);
        assert Visible(env.verbosity, o4) == [];
      } else {
        Emit(UsingOverride(IPV4, ipv4));
      }
      ghost var log1 := log;
      if ipv6 == "" {
        ipv6 := CutAtLineEnd(fetchIPV6.output);
        assert Visible(env.verbosity, o6) == [];
      } else {
        Emit(UsingOverride(IPV6, ipv6));
      }
      AppendVisible(old(log), env.verbosity, o4, o6);
    }

    /** The Concise-mode summary of TacitDynDns.cpp:373-389: "Runs: " on the
        first run of a day, then the character for the two flags. */
    method WriteSummary(anyIPV4: bool, anyIPV6: bool)
      modifies this`log
      ensures log == old(log) + Visible(env.verbosity, SummaryEvents(logNewDay, anyIPV4, anyIPV6))
    {
      if logNewDay {
        Emit(RunsPrefix);
        Emit(RunChar(SummaryChar(anyIPV4, anyIPV6)));
        AppendVisible(old(log), env.verbosity, [RunsPrefix], [RunChar(SummaryChar(anyIPV4, anyIPV6))]);
      } else {
        Emit(RunChar(SummaryChar(anyIPV4, anyIPV6)));
      }
    }

    /** UpdateAllServices: pick the two addresses, run the IPv4 phase and
        then the IPv6 phase, and write the Concise-mode summary. */
    method UpdateAllServices(overrides: seq<string>, force: bool,
                             fetchIPV4: ProcessResult, fetchIPV6: ProcessResult, server: CurlServer)
      modifies this`blocks, this`log, this`calls
      ensures blocks == RunBlocks(old(blocks), env.curl, RunInput(overrides, force, fetchIPV4, fetchIPV6, server))
      ensures calls == old(calls) + RunCalls(old(blocks), env.curl, RunInput(overrides, force, fetchIPV4, fetchIPV6, server))
      ensures log == old(log) +
        Visible(env.verbosity, RunEvents(old(blocks), env.curl, logNewDay, RunInput(overrides, force, fetchIPV4, fetchIPV6, server)))
    {
      ghost var input := RunInput(overrides, force, fetchIPV4, fetchIPV6, server);
      var ipv4, ipv6 := ResolveAddresses(overrides, fetchIPV4, fetchIPV6);
      assert ipv4 == RunIPV4(input) && ipv6 == RunIPV6(input);
      var anyUpdateIPV4 := UpdateFamily(IPV4, ipv4, force, server);
      ghost var calls1 := calls;
      var anyUpdateIPV6 := UpdateFamily(IPV6, ipv6, force, server);
      RunCallParts(old(calls), calls1, calls, old(blocks), env.curl, input);
      WriteSummary(anyUpdateIPV4, anyUpdateIPV6);
      RunLogParts(old(log), env.verbosity, old(blocks), env.curl, logNewDay, input);
    }

    /** One run of main without its error handling (TacitDynDns.cpp:489-503):
        read the config, open the log, load the state, update, and return
        the entries written to the state file. */
    method Run(cfg: seq<ConfigBlock>, logExists: bool, infoFound: bool, modificationTime: nat, now: nat,
               stateExists: bool, state: seq<StateEntry>,
               overrides: seq<string>, force: bool,
               fetchIPV4: ProcessResult, fetchIPV6: ProcessResult, server: CurlServer,
               clock: nat -> nat) returns (saved: seq<StateEntry>)
      requires blocks == []
      modifies this`env, this`blocks, this`logNewDay, this`log, this`calls
      ensures env == ConfigEnvironment(old(env), cfg)
      ensures logNewDay == if env.verbosity != None then IsLogNewDay(logExists, infoFound, modificationTime, now)
                           else old(logNewDay)
      ensures
        var loaded := StartBlocks(cfg, stateExists, state);
        blocks == RunBlocks(loaded, env.curl, RunInput(overrides, force, fetchIPV4, fetchIPV6, server)) &&
        calls == old(calls) + RunCalls(loaded, env.curl, RunInput(overrides, force, fetchIPV4, fetchIPV6, server)) &&
        log == old(log) + Visible(env.verbosity,
                                  RunEvents(loaded, env.curl, logNewDay, RunInput(overrides, force, fetchIPV4, fetchIPV6, server))) &&
        saved == SavedEntries(blocks, clock, |blocks|)
    {
      ReadConfigFile(cfg);
      assert blocks == ConfigUpdateBlocks(cfg);
      OpenLog(logExists, infoFound, modificationTime, now);
      ReadCurrentState(stateExists, state);
      ghost var loaded := blocks;
      ghost var input := RunInput(overrides, force, fetchIPV4, fetchIPV6, server);
      assert loaded == if stateExists then LoadedBlocks(ConfigUpdateBlocks(cfg), state) else ConfigUpdateBlocks(cfg);
      assert log == old(log) && calls == old(calls);
      UpdateAllServices(overrides, force, fetchIPV4, fetchIPV6, server);
      assert blocks == RunBlocks(loaded, env.curl, input);
      assert calls == old(calls) + RunCalls(loaded, env.curl, input);
      assert log == old(log) + Visible(env.verbosity, RunEvents(loaded, env.curl, logNewDay, input));
      saved := WriteCurrentState(clock);
      assert StartBlocks(cfg, stateExists, state) == loaded;
    }
  }
}
