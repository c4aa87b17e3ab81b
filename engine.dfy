/** What one run of UpdateAllServices does, stated on values
    (TacitDynDns.cpp:240-390): which blocks are attempted, which end up with
    the new address, what is logged, and the properties that follow. The
    replies of the update commands come from `server`, indexed by the block's
    position and the command line. */
module Engine {
  import opened Text
  import opened Config
  import opened Process
  import opened Logging
  import opened ProtocolClient
  import opened Resolver

  /** The reply the update command for the block at a position gets. */
  type CurlServer = (nat, string) -> ProcessResult

  /** The syntactic address check: three dots for IPv4, seven colons for IPv6. */
  predicate IsValidAddress(record: Record, ip: string) {
    match record
    case IPV4 => CountChar(ip, '.') == 3
    case IPV6 => CountChar(ip, ':') == 7
  }

  /** TacitDynDns.cpp:297 and 344. */
  predicate AttemptUpdate(force: bool, b: UpdateBlock, ip: string) {
    force || b.mode == Always || b.lastUpdateIP != ip
  }

  /** The family's phase calls RunCurl for this block. */
  predicate Attempted(b: UpdateBlock, record: Record, ip: string, force: bool) {
    b.record == record && IsValidAddress(record, ip) && AttemptUpdate(force, b, ip)
  }

  function BlockCommand(curl: string, b: UpdateBlock, ip: string): string {
    CurlCommand(curl, b.protocol, b.username, b.password, b.service, b.domain, ip)
  }

  /** Block `b`, at position `i`, is attempted and its update reported success. */
  predicate BlockSucceeded(b: UpdateBlock, i: nat, record: Record, ip: string, force: bool,
                           curl: string, server: CurlServer)
  {
    Attempted(b, record, ip, force) && CurlSucceeded(server(i, BlockCommand(curl, b, ip)))
  }

  predicate Succeeded(bs: seq<UpdateBlock>, i: nat, record: Record, ip: string, force: bool,
                      curl: string, server: CurlServer)
    requires i < |bs|
  {
    BlockSucceeded(bs[i], i, record, ip, force, curl, server)
  }

  /** The blocks once the phase has handled the first `n` of them: a block
      whose update succeeded holds the new address; every other block is as
      it was. */
  function PhaseBlocksBelow(bs: seq<UpdateBlock>, n: nat, record: Record, ip: string, force: bool,
                            curl: string, server: CurlServer): (r: seq<UpdateBlock>)
    requires n <= |bs|
    ensures |r| == |bs|
  {
    seq(|bs|, k requires 0 <= k < |bs| =>
      if k < n && Succeeded(bs, k, record, ip, force, curl, server) then bs[k].(lastUpdateIP := ip) else bs[k])
  }

  /** The blocks after one family's phase. */
  function PhaseBlocks(bs: seq<UpdateBlock>, record: Record, ip: string, force: bool,
                       curl: string, server: CurlServer): (r: seq<UpdateBlock>)
    ensures |r| == |bs|
    ensures forall i :: 0 <= i < |bs| ==>
      r[i] == if Succeeded(bs, i, record, ip, force, curl, server) then bs[i].(lastUpdateIP := ip) else bs[i]
  {
    PhaseBlocksBelow(bs, |bs|, record, ip, force, curl, server)
  }

  /** Handling block `n` changes at most block `n`. */
  lemma PhaseBlocksStep(bs: seq<UpdateBlock>, n: nat, record: Record, ip: string, force: bool,
                        curl: string, server: CurlServer)
    requires n < |bs|
    ensures PhaseBlocksBelow(bs, n, record, ip, force, curl, server)[n] == bs[n]
    ensures PhaseBlocksBelow(bs, n + 1, record, ip, force, curl, server) ==
      if Succeeded(bs, n, record, ip, force, curl, server)
      then PhaseBlocksBelow(bs, n, record, ip, force, curl, server)[n := bs[n].(lastUpdateIP := ip)]
      else PhaseBlocksBelow(bs, n, record, ip, force, curl, server)
  {
  }

  /** Some update among the first `n` blocks succeeded. */
  predicate AnyUpdatedBelow(bs: seq<UpdateBlock>, n: nat, record: Record, ip: string, force: bool,
                            curl: string, server: CurlServer)
    requires n <= |bs|
  {
    n > 0 && (AnyUpdatedBelow(bs, n - 1, record, ip, force, curl, server) ||
              Succeeded(bs, n - 1, record, ip, force, curl, server))
  }

  lemma {:induction false} AnyUpdatedBelowSpec(bs: seq<UpdateBlock>, n: nat, record: Record, ip: string, force: bool,
                                               curl: string, server: CurlServer)
    requires n <= |bs|
    ensures AnyUpdatedBelow(bs, n, record, ip, force, curl, server) <==>
      exists i :: 0 <= i < n && Succeeded(bs, i, record, ip, force, curl, server)
  {
    if n > 0 {
      AnyUpdatedBelowSpec(bs, n - 1, record, ip, force, curl, server);
      var last := Succeeded(bs, n - 1, record, ip, force, curl, server);
      if last {
        assert 0 <= n - 1 < n && Succeeded(bs, n - 1, record, ip, force, curl, server);
      } else {
        assert forall i :: 0 <= i < n && Succeeded(bs, i, record, ip, force, curl, server) ==> i < n - 1;
      }
    }
  }

  /** At the end of the loop the prefix forms are the whole phase. */
  lemma PhaseComplete(bs: seq<UpdateBlock>, record: Record, ip: string, force: bool,
                      curl: string, server: CurlServer)
    ensures PhaseBlocksBelow(bs, |bs|, record, ip, force, curl, server) == PhaseBlocks(bs, record, ip, force, curl, server)
    ensures AnyUpdatedBelow(bs, |bs|, record, ip, force, curl, server) == AnyUpdated(bs, record, ip, force, curl, server)
  {
    AnyUpdatedBelowSpec(bs, |bs|, record, ip, force, curl, server);
  }

  /** `anyUpdateIPV4` / `anyUpdateIPV6` at the end of the phase: some update
      of the family succeeded. */
  predicate AnyUpdated(bs: seq<UpdateBlock>, record: Record, ip: string, force: bool,
                       curl: string, server: CurlServer)
  {
    exists i :: 0 <= i < |bs| && Succeeded(bs, i, record, ip, force, curl, server)
  }

  /** The positions of the first `n` blocks that are attempted, in order. */
  function AttemptedBelow(bs: seq<UpdateBlock>, record: Record, ip: string, force: bool, n: nat): seq<nat>
    requires n <= |bs|
  {
    if n == 0 then []
    else AttemptedBelow(bs, record, ip, force, n - 1) + (if Attempted(bs[n - 1], record, ip, force) then [n - 1] else [])
  }

  /** The calls are made in list order, once for each attempted block. */
  lemma {:induction false} AttemptedBelowSpec(bs: seq<UpdateBlock>, record: Record, ip: string, force: bool, n: nat)
    requires n <= |bs|
    ensures forall k: nat :: k in AttemptedBelow(bs, record, ip, force, n) <==> k < n && Attempted(bs[k], record, ip, force)
    ensures forall p, q :: 0 <= p < q < |AttemptedBelow(bs, record, ip, force, n)| ==>
      AttemptedBelow(bs, record, ip, force, n)[p] < AttemptedBelow(bs, record, ip, force, n)[q]
  {
    if n > 0 {
      AttemptedBelowSpec(bs, record, ip, force, n - 1);
      var before := AttemptedBelow(bs, record, ip, force, n - 1);
      assert forall p :: 0 <= p < |before| ==> before[p] in before;
    }
  }

  /** No position is attempted exactly when no block below `n` is. */
  lemma {:induction false} AttemptedBelowEmpty(bs: seq<UpdateBlock>, record: Record, ip: string, force: bool, n: nat)
    requires n <= |bs|
    ensures AttemptedBelow(bs, record, ip, force, n) == [] <==>
      forall k :: 0 <= k < n ==> !Attempted(bs[k], record, ip, force)
  {
    if n > 0 {
      AttemptedBelowEmpty(bs, record, ip, force, n - 1);
    }
  }

  /** With no attempted block the phase changes nothing and reports nothing. */
  lemma NoAttemptsNoChange(bs: seq<UpdateBlock>, record: Record, ip: string, force: bool,
                           curl: string, server: CurlServer)
    requires forall i :: 0 <= i < |bs| ==> !Attempted(bs[i], record, ip, force)
    ensures AttemptedBelow(bs, record, ip, force, |bs|) == []
    ensures PhaseBlocks(bs, record, ip, force, curl, server) == bs
    ensures !AnyUpdated(bs, record, ip, force, curl, server)
  {
    AttemptedBelowEmpty(bs, record, ip, force, |bs|);
    assert forall i :: 0 <= i < |bs| ==> !Succeeded(bs, i, record, ip, force, curl, server);
  }

  /** The calls made for the first `i` blocks, followed by the one for
      block `i` when it is attempted, are the calls made for the first
      `i + 1`. */
  lemma AttemptedStep(calls0: seq<nat>, calls1: seq<nat>, calls: seq<nat>, bs: seq<UpdateBlock>,
                      i: nat, record: Record, ip: string, force: bool)
    requires i < |bs|
    requires calls1 == calls0 + AttemptedBelow(bs, record, ip, force, i)
    requires calls == calls1 + (if Attempted(bs[i], record, ip, force) then [i] else [])
    ensures calls == calls0 + AttemptedBelow(bs, record, ip, force, i + 1)
  {
    CallsAppend(calls0, AttemptedBelow(bs, record, ip, force, i), if Attempted(bs[i], record, ip, force) then [i] else []);
  }

  /** `numIPV4Blocks` / `numIPV6Blocks`: how many blocks have this record type. */
  function CountRecords(bs: seq<UpdateBlock>, record: Record): (c: nat)
    ensures c <= |bs|
    decreases |bs|
  {
    if bs == [] then 0
    else CountRecords(bs[..|bs| - 1], record) + (if bs[|bs| - 1].record == record then 1 else 0)
  }

  /** The count is zero exactly when no block has this record type, so the
      warning of an invalid address is written exactly when the family has
      blocks. */
  lemma {:induction false} CountRecordsZero(bs: seq<UpdateBlock>, record: Record)
    ensures CountRecords(bs, record) == 0 <==> forall i :: 0 <= i < |bs| ==> bs[i].record != record
    decreases |bs|
  {
    if bs != [] {
      CountRecordsZero(bs[..|bs| - 1], record);
    }
  }

  // ---------------------------------------------------------------------
  // Log entries of a run, before the verbosity filter

  /** What RunCurl logs at Full: the command and the reply's first line. */
  function CurlEvents(command: string, reply: ProcessResult): seq<LogEntry> {
    [CurlCmd(command), CurlReply(reply.exitCode, CutAtLineEnd(reply.output))]
  }

  /** What an attempted update of block `b` at position `i` logs: the
      command and reply at Full, then the outcome. */
  function AttemptEvents(curl: string, b: UpdateBlock, i: nat, record: Record, ip: string,
                         server: CurlServer): seq<LogEntry>
  {
    var command := BlockCommand(curl, b, ip);
    var reply := server(i, command);
    CurlEvents(command, reply) +
      [if CurlSucceeded(reply) then Updated(record, ip, b.domain) else UpdateFailed(record, ip, b.domain)]
  }

  /** What the phase logs for block `b` at position `i`. */
  function BlockEvents(b: UpdateBlock, i: nat, record: Record, ip: string, force: bool,
                       curl: string, server: CurlServer): seq<LogEntry>
  {
    if b.record != record then []
    else if AttemptUpdate(force, b, ip) then AttemptEvents(curl, b, i, record, ip, server)
    else [Skipped(record, ip, b.domain)]
  }

  function PhaseEvents(bs: seq<UpdateBlock>, n: nat, record: Record, ip: string, force: bool,
                       curl: string, server: CurlServer): seq<LogEntry>
    requires n <= |bs|
  {
    if n == 0 then []
    else PhaseEvents(bs, n - 1, record, ip, force, curl, server) + BlockEvents(bs[n - 1], n - 1, record, ip, force, curl, server)
  }

  /** The log after block `i` is handled extends the log the first `i`
      blocks left by what block `i` logs. */
  lemma PhaseLogStep(log0: seq<LogEntry>, log1: seq<LogEntry>, log: seq<LogEntry>, v: Verbosity,
                     bs: seq<UpdateBlock>, i: nat, record: Record, ip: string, force: bool,
                     curl: string, server: CurlServer)
    requires i < |bs|
    requires log1 == log0 + Visible(v, PhaseEvents(bs, i, record, ip, force, curl, server))
    requires log == log1 + Visible(v, BlockEvents(bs[i], i, record, ip, force, curl, server))
    ensures log == log0 + Visible(v, PhaseEvents(bs, i + 1, record, ip, force, curl, server))
  {
    AppendVisible(log0, v, PhaseEvents(bs, i, record, ip, force, curl, server),
                  BlockEvents(bs[i], i, record, ip, force, curl, server));
  }

  /** What one family's phase logs: the detected address and the blocks'
      entries, or one warning when the address is invalid and blocks of that
      family exist. */
  function FamilyEvents(bs: seq<UpdateBlock>, record: Record, ip: string, force: bool,
                        curl: string, server: CurlServer): seq<LogEntry>
  {
    if IsValidAddress(record, ip) then [Detected(record, ip)] + PhaseEvents(bs, |bs|, record, ip, force, curl, server)
    else if CountRecords(bs, record) > 0 then [NoValidAddress(record, CountRecords(bs, record))]
    else []
  }

  function OverrideEvents(record: Record, override: string): seq<LogEntry> {
    if override != "" then [UsingOverride(record, override)] else []
  }

  /** The Concise-mode output of the run. */
  function SummaryEvents(logNewDay: bool, anyIPV4: bool, anyIPV6: bool): seq<LogEntry> {
    (if logNewDay then [RunsPrefix] else []) + [RunChar(SummaryChar(anyIPV4, anyIPV6))]
  }

  // ---------------------------------------------------------------------
  // A whole run

  /** The inputs of one run besides the blocks: the `-o` arguments, the
      force flag, the replies of the two address fetches, and the update
      replies. */
  datatype RunInput = RunInput(
    overrides: seq<string>,
    force: bool,
    fetchIPV4: ProcessResult,
    fetchIPV6: ProcessResult,
    server: CurlServer)

  function RunIPV4(input: RunInput): string {
    ResolvedAddress(LastOverride(input.overrides, IPV4), input.fetchIPV4)
  }

  function RunIPV6(input: RunInput): string {
    ResolvedAddress(LastOverride(input.overrides, IPV6), input.fetchIPV6)
  }

  /** The blocks after the IPv4 phase. */
  function AfterIPV4(bs: seq<UpdateBlock>, curl: string, input: RunInput): seq<UpdateBlock> {
    PhaseBlocks(bs, IPV4, RunIPV4(input), input.force, curl, input.server)
  }

  /** The blocks after the whole run. */
  function RunBlocks(bs: seq<UpdateBlock>, curl: string, input: RunInput): seq<UpdateBlock> {
    PhaseBlocks(AfterIPV4(bs, curl, input), IPV6, RunIPV6(input), input.force, curl, input.server)
  }

  function RunAnyIPV4(bs: seq<UpdateBlock>, curl: string, input: RunInput): bool {
    AnyUpdated(bs, IPV4, RunIPV4(input), input.force, curl, input.server)
  }

  function RunAnyIPV6(bs: seq<UpdateBlock>, curl: string, input: RunInput): bool {
    AnyUpdated(AfterIPV4(bs, curl, input), IPV6, RunIPV6(input), input.force, curl, input.server)
  }

  /** The log lines the run can write, in order. */
  function RunLines(bs: seq<UpdateBlock>, curl: string, input: RunInput): seq<LogEntry> {
    OverrideEvents(IPV4, LastOverride(input.overrides, IPV4)) +
    OverrideEvents(IPV6, LastOverride(input.overrides, IPV6)) +
    FamilyEvents(bs, IPV4, RunIPV4(input), input.force, curl, input.server) +
    FamilyEvents(AfterIPV4(bs, curl, input), IPV6, RunIPV6(input), input.force, curl, input.server)
  }

  /** Everything the run can log, in order, before the verbosity filter. */
  function RunEvents(bs: seq<UpdateBlock>, curl: string, logNewDay: bool, input: RunInput): seq<LogEntry> {
    RunLines(bs, curl, input) + SummaryEvents(logNewDay, RunAnyIPV4(bs, curl, input), RunAnyIPV6(bs, curl, input))
  }

  /** The positions of the blocks whose update command the run calls, in
      order: those of the IPv4 phase, then those of the IPv6 phase. */
  function RunCalls(bs: seq<UpdateBlock>, curl: string, input: RunInput): seq<nat> {
    AttemptedBelow(bs, IPV4, RunIPV4(input), input.force, |bs|) +
    AttemptedBelow(AfterIPV4(bs, curl, input), IPV6, RunIPV6(input), input.force, |bs|)
  }

  /** The calls of the two phases, made one after the other, are the run's. */
  lemma RunCallParts(calls0: seq<nat>, calls1: seq<nat>, calls: seq<nat>,
                     bs: seq<UpdateBlock>, curl: string, input: RunInput)
    requires calls1 == calls0 + AttemptedBelow(bs, IPV4, RunIPV4(input), input.force, |bs|)
    requires calls == calls1 + AttemptedBelow(AfterIPV4(bs, curl, input), IPV6, RunIPV6(input), input.force, |bs|)
    ensures calls == calls0 + RunCalls(bs, curl, input)
  {
    var a4 := AttemptedBelow(bs, IPV4, RunIPV4(input), input.force, |bs|);
    var a6 := AttemptedBelow(AfterIPV4(bs, curl, input), IPV6, RunIPV6(input), input.force, |bs|);
    CallsAppend(calls0, a4, a6);
  }

  /** Appending two lists of calls one after the other appends both. */
  lemma CallsAppend(calls: seq<nat>, a: seq<nat>, b: seq<nat>)
    ensures calls + a + b == calls + (a + b)
  {
  }

  /** The run's log, part by part: the override notes, the two phases and
      the summary, each written behind the previous. */
  lemma RunLogParts(log0: seq<LogEntry>, v: Verbosity, bs: seq<UpdateBlock>, curl: string,
                    logNewDay: bool, input: RunInput)
    ensures log0 +
      Visible(v, OverrideEvents(IPV4, LastOverride(input.overrides, IPV4)) +
                 OverrideEvents(IPV6, LastOverride(input.overrides, IPV6))) +
      Visible(v, FamilyEvents(bs, IPV4, RunIPV4(input), input.force, curl, input.server)) +
      Visible(v, FamilyEvents(AfterIPV4(bs, curl, input), IPV6, RunIPV6(input), input.force, curl, input.server)) +
      Visible(v, SummaryEvents(logNewDay, RunAnyIPV4(bs, curl, input), RunAnyIPV6(bs, curl, input)))
      == log0 + Visible(v, RunEvents(bs, curl, logNewDay, input))
  {
    var o := OverrideEvents(IPV4, LastOverride(input.overrides, IPV4)) +
             OverrideEvents(IPV6, LastOverride(input.overrides, IPV6));
    var f4 := FamilyEvents(bs, IPV4, RunIPV4(input), input.force, curl, input.server);
    var f6 := FamilyEvents(AfterIPV4(bs, curl, input), IPV6, RunIPV6(input), input.force, curl, input.server);
    var s := SummaryEvents(logNewDay, RunAnyIPV4(bs, curl, input), RunAnyIPV6(bs, curl, input));
    AppendVisible(log0, v, o, f4);
    AppendVisible(log0, v, o + f4, f6);
    AppendVisible(log0, v, o + f4 + f6, s);
  }

  // ---------------------------------------------------------------------
  // Properties

  /** A phase changes nothing but the address of its own family's blocks. */
  lemma PhaseIsolation(bs: seq<UpdateBlock>, record: Record, ip: string, force: bool,
                       curl: string, server: CurlServer)
    ensures forall i :: 0 <= i < |bs| ==>
      PhaseBlocks(bs, record, ip, force, curl, server)[i] ==
        bs[i].(lastUpdateIP := PhaseBlocks(bs, record, ip, force, curl, server)[i].lastUpdateIP)
    ensures forall i :: 0 <= i < |bs| && bs[i].record != record ==>
      PhaseBlocks(bs, record, ip, force, curl, server)[i] == bs[i]
  {
  }

  /** A run changes nothing but the blocks' addresses. */
  lemma RunKeepsKeys(bs: seq<UpdateBlock>, curl: string, input: RunInput)
    ensures |RunBlocks(bs, curl, input)| == |bs|
    ensures forall i :: 0 <= i < |bs| ==>
      RunBlocks(bs, curl, input)[i] == bs[i].(lastUpdateIP := RunBlocks(bs, curl, input)[i].lastUpdateIP)
  {
    PhaseIsolation(bs, IPV4, RunIPV4(input), input.force, curl, input.server);
    PhaseIsolation(AfterIPV4(bs, curl, input), IPV6, RunIPV6(input), input.force, curl, input.server);
  }

  /** The IPv4 phase leaves the IPv6 phase's view as it is: the IPv6 phase
      attempts, updates and reports the same on the blocks before and after
      it. */
  lemma IPV4PhaseLeavesIPV6Alone(bs: seq<UpdateBlock>, ipv4: string, ipv6: string, force: bool,
                                  curl: string, server: CurlServer)
    ensures
      var after := PhaseBlocks(bs, IPV4, ipv4, force, curl, server);
      AnyUpdated(after, IPV6, ipv6, force, curl, server) == AnyUpdated(bs, IPV6, ipv6, force, curl, server) &&
      AttemptedBelow(after, IPV6, ipv6, force, |bs|) == AttemptedBelow(bs, IPV6, ipv6, force, |bs|)
    ensures forall i :: 0 <= i < |bs| && bs[i].record == IPV6 ==>
      PhaseBlocks(PhaseBlocks(bs, IPV4, ipv4, force, curl, server), IPV6, ipv6, force, curl, server)[i] ==
        PhaseBlocks(bs, IPV6, ipv6, force, curl, server)[i]
  {
    var after := PhaseBlocks(bs, IPV4, ipv4, force, curl, server);
    forall i | 0 <= i < |bs| && bs[i].record == IPV6 ensures after[i] == bs[i] { }
    SameFamilyBlocksSameAttempts(after, bs, IPV6, ipv6, force, |bs|);
    assert forall i :: 0 <= i < |bs| ==>
      (Succeeded(after, i, IPV6, ipv6, force, curl, server) <==> Succeeded(bs, i, IPV6, ipv6, force, curl, server));
  }

  lemma {:induction false} SameFamilyBlocksSameAttempts(xs: seq<UpdateBlock>, ys: seq<UpdateBlock>, record: Record,
                                                        ip: string, force: bool, n: nat)
    requires n <= |xs| == |ys|
    requires forall i :: 0 <= i < |xs| ==> (xs[i].record == record || ys[i].record == record ==> xs[i] == ys[i])
    ensures AttemptedBelow(xs, record, ip, force, n) == AttemptedBelow(ys, record, ip, force, n)
  {
    if n > 0 {
      SameFamilyBlocksSameAttempts(xs, ys, record, ip, force, n - 1);
    }
  }

  /** Validity gating: with an address failing the check no block of the
      family is attempted or changed, the flag stays false, and the log holds
      at most the one warning. */
  lemma InvalidAddressGating(bs: seq<UpdateBlock>, record: Record, ip: string, force: bool,
                             curl: string, server: CurlServer)
    requires !IsValidAddress(record, ip)
    ensures AttemptedBelow(bs, record, ip, force, |bs|) == []
    ensures PhaseBlocks(bs, record, ip, force, curl, server) == bs
    ensures !AnyUpdated(bs, record, ip, force, curl, server)
    ensures FamilyEvents(bs, record, ip, force, curl, server) ==
      if CountRecords(bs, record) > 0 then [NoValidAddress(record, CountRecords(bs, record))] else []
  {
    AttemptedBelowSpec(bs, record, ip, force, |bs|);
    NoAttemptsNoChange(bs, record, ip, force, curl, server);
  }

  /** Force and Always: with a valid address every block of the family with
      the force flag, and every block in Always mode, is attempted. */
  lemma ForceOrAlwaysAttempts(bs: seq<UpdateBlock>, record: Record, ip: string, force: bool, k: nat)
    requires k < |bs| && bs[k].record == record && IsValidAddress(record, ip)
    requires force || bs[k].mode == Always
    ensures k in AttemptedBelow(bs, record, ip, force, |bs|)
  {
    AttemptedBelowSpec(bs, record, ip, force, |bs|);
  }

  /** Idempotence: without force, when every block of the family is in
      on-change mode and already holds the address, no update is attempted,
      the blocks stay as they are and the flag stays false. */
  lemma UnchangedAddressNoCalls(bs: seq<UpdateBlock>, record: Record, ip: string,
                                curl: string, server: CurlServer)
    requires forall i :: 0 <= i < |bs| && bs[i].record == record ==>
      bs[i].mode == Changed && bs[i].lastUpdateIP == ip
    ensures AttemptedBelow(bs, record, ip, false, |bs|) == []
    ensures PhaseBlocks(bs, record, ip, false, curl, server) == bs
    ensures !AnyUpdated(bs, record, ip, false, curl, server)
  {
    AttemptedBelowSpec(bs, record, ip, false, |bs|);
    NoAttemptsNoChange(bs, record, ip, false, curl, server);
  }

  /** Every update the phase attempts reports success. */
  predicate AllAttemptsSucceed(bs: seq<UpdateBlock>, record: Record, ip: string, force: bool,
                               curl: string, server: CurlServer)
  {
    forall i :: 0 <= i < |bs| && Attempted(bs[i], record, ip, force) ==>
      CurlSucceeded(server(i, BlockCommand(curl, bs[i], ip)))
  }

  /** A phase with a valid address in which every attempt succeeded leaves
      every block of the family holding the address: those attempted took
      it, and the others were skipped because they already held it. */
  lemma AllSucceededFamilyHoldsAddress(bs: seq<UpdateBlock>, record: Record, ip: string, force: bool,
                                       curl: string, server: CurlServer)
    requires IsValidAddress(record, ip)
    requires AllAttemptsSucceed(bs, record, ip, force, curl, server)
    ensures forall i :: 0 <= i < |bs| && bs[i].record == record ==>
      PhaseBlocks(bs, record, ip, force, curl, server)[i].lastUpdateIP == ip
  {
    forall i | 0 <= i < |bs| && bs[i].record == record
      ensures PhaseBlocks(bs, record, ip, force, curl, server)[i].lastUpdateIP == ip
    {
      if Attempted(bs[i], record, ip, force) {
        assert Succeeded(bs, i, record, ip, force, curl, server);
      }
    }
  }

  /** Re-running a phase: after a phase in which every attempt succeeded, a
      second phase with the same address and no force, over blocks in
      on-change mode, attempts nothing and changes nothing, whatever the
      update replies would be. */
  lemma RerunPhaseIsNoOp(bs: seq<UpdateBlock>, record: Record, ip: string, force: bool,
                         curl: string, server: CurlServer, server2: CurlServer)
    requires forall i :: 0 <= i < |bs| && bs[i].record == record ==> bs[i].mode == Changed
    requires AllAttemptsSucceed(bs, record, ip, force, curl, server)
    ensures
      var after := PhaseBlocks(bs, record, ip, force, curl, server);
      (forall i :: 0 <= i < |bs| ==> !Attempted(after[i], record, ip, false)) &&
      AttemptedBelow(after, record, ip, false, |bs|) == [] &&
      PhaseBlocks(after, record, ip, false, curl, server2) == after &&
      !AnyUpdated(after, record, ip, false, curl, server2)
  {
    var after := PhaseBlocks(bs, record, ip, force, curl, server);
    if IsValidAddress(record, ip) {
      forall i | 0 <= i < |after| && after[i].record == record
        ensures after[i].mode == Changed && after[i].lastUpdateIP == ip
      {
        if Attempted(bs[i], record, ip, force) {
          assert Succeeded(bs, i, record, ip, force, curl, server);
        }
      }
      UnchangedAddressNoCalls(after, record, ip, curl, server2);
    } else {
      InvalidAddressGating(after, record, ip, false, curl, server2);
    }
  }

  /** Both phases re-run on what both phases left, with plain arguments. */
  lemma RerunBothPhases(bs: seq<UpdateBlock>, ipv4: string, ipv6: string, force: bool,
                        curl: string, server: CurlServer, server2: CurlServer)
    requires forall i :: 0 <= i < |bs| ==> bs[i].mode == Changed
    requires AllAttemptsSucceed(bs, IPV4, ipv4, force, curl, server)
    requires AllAttemptsSucceed(PhaseBlocks(bs, IPV4, ipv4, force, curl, server), IPV6, ipv6, force, curl, server)
    ensures
      var after := PhaseBlocks(PhaseBlocks(bs, IPV4, ipv4, force, curl, server), IPV6, ipv6, force, curl, server);
      (forall i :: 0 <= i < |bs| ==> !Attempted(after[i], IPV4, ipv4, false) && !Attempted(after[i], IPV6, ipv6, false)) &&
      PhaseBlocks(after, IPV4, ipv4, false, curl, server2) == after &&
      PhaseBlocks(after, IPV6, ipv6, false, curl, server2) == after &&
      !AnyUpdated(after, IPV4, ipv4, false, curl, server2) &&
      !AnyUpdated(after, IPV6, ipv6, false, curl, server2)
  {
    var mid := PhaseBlocks(bs, IPV4, ipv4, force, curl, server);
    var after := PhaseBlocks(mid, IPV6, ipv6, force, curl, server);
    RerunPhaseIsNoOp(bs, IPV4, ipv4, force, curl, server, server2);
    PhaseIsolation(bs, IPV4, ipv4, force, curl, server);
    assert forall i :: 0 <= i < |mid| ==> mid[i].mode == Changed;
    RerunPhaseIsNoOp(mid, IPV6, ipv6, force, curl, server, server2);
    // The IPv6 phase leaves the IPv4 blocks of `mid` as they are.
    PhaseIsolation(mid, IPV6, ipv6, force, curl, server);
    forall i | 0 <= i < |bs| ensures !Attempted(after[i], IPV4, ipv4, false) {
      assert !Attempted(mid[i], IPV4, ipv4, false);
    }
    NoAttemptsNoChange(after, IPV4, ipv4, false, curl, server2);
    NoAttemptsNoChange(after, IPV6, ipv6, false, curl, server2);
  }

  /** The whole-run form of idempotence: after a run in which every attempt
      succeeded, a second run over blocks in on-change mode that resolves the
      same addresses without force makes no update call and changes no block. */
  lemma RerunIsNoOp(bs: seq<UpdateBlock>, curl: string, first: RunInput, second: RunInput)
    requires forall i :: 0 <= i < |bs| ==> bs[i].mode == Changed
    requires AllAttemptsSucceed(bs, IPV4, RunIPV4(first), first.force, curl, first.server)
    requires AllAttemptsSucceed(AfterIPV4(bs, curl, first), IPV6, RunIPV6(first), first.force, curl, first.server)
    requires RunIPV4(second) == RunIPV4(first) && RunIPV6(second) == RunIPV6(first) && !second.force
    ensures
      var after := RunBlocks(bs, curl, first);
      AttemptedBelow(after, IPV4, RunIPV4(second), false, |bs|) == [] &&
      AttemptedBelow(after, IPV6, RunIPV6(second), false, |bs|) == [] &&
      RunBlocks(after, curl, second) == after &&
      RunCalls(after, curl, second) == [] &&
      !RunAnyIPV4(after, curl, second) && !RunAnyIPV6(after, curl, second)
  {
    var ipv4, ipv6 := RunIPV4(first), RunIPV6(first);
    var after := RunBlocks(bs, curl, first);
    RerunBothPhases(bs, ipv4, ipv6, first.force, curl, first.server, second.server);
    AttemptedBelowEmpty(after, IPV4, ipv4, false, |bs|);
    AttemptedBelowEmpty(after, IPV6, ipv6, false, |bs|);
  }

  // ---------------------------------------------------------------------
  // Log properties

  /** Log lines of a phase are never run-summary entries. */
  lemma {:induction false} PhaseEventsAreLines(bs: seq<UpdateBlock>, n: nat, record: Record, ip: string,
                                               force: bool, curl: string, server: CurlServer)
    requires n <= |bs|
    ensures forall e :: e in PhaseEvents(bs, n, record, ip, force, curl, server) ==> !e.IsSummary()
  {
    if n > 0 {
      PhaseEventsAreLines(bs, n - 1, record, ip, force, curl, server);
    }
  }

  lemma LinesHiddenAtConcise(es: seq<LogEntry>)
    requires forall e :: e in es ==> !e.IsSummary()
    ensures Visible(Concise, es) == []
  {
  }

  lemma FamilyEventsAreLines(bs: seq<UpdateBlock>, record: Record, ip: string, force: bool,
                             curl: string, server: CurlServer)
    ensures forall e :: e in FamilyEvents(bs, record, ip, force, curl, server) ==> !e.IsSummary()
  {
    PhaseEventsAreLines(bs, |bs|, record, ip, force, curl, server);
  }

  lemma RunLinesAreLines(bs: seq<UpdateBlock>, curl: string, input: RunInput)
    ensures forall e :: e in RunLines(bs, curl, input) ==> !e.IsSummary()
  {
    FamilyEventsAreLines(bs, IPV4, RunIPV4(input), input.force, curl, input.server);
    FamilyEventsAreLines(AfterIPV4(bs, curl, input), IPV6, RunIPV6(input), input.force, curl, input.server);
  }

  /** Behind log lines that are no summary entries, Concise mode shows
      exactly the summary; the line modes show the lines and no summary. */
  lemma SummaryAfterLines(v: Verbosity, lines: seq<LogEntry>, logNewDay: bool, anyIPV4: bool, anyIPV6: bool)
    requires forall e :: e in lines ==> !e.IsSummary()
    ensures v == Concise ==>
      Visible(v, lines + SummaryEvents(logNewDay, anyIPV4, anyIPV6)) == SummaryEvents(logNewDay, anyIPV4, anyIPV6)
    ensures v.AtLeast(Minimal) ==> Visible(v, lines + SummaryEvents(logNewDay, anyIPV4, anyIPV6)) == Visible(v, lines)
  {
    var s := SummaryEvents(logNewDay, anyIPV4, anyIPV6);
    LinesHiddenAtConcise(lines);
    VisibleConcat(v, lines, s);
    if logNewDay {
      assert s == [RunsPrefix] + [s[1]];
      VisibleConcat(v, [RunsPrefix], [s[1]]);
    }
  }

  /** In Concise mode the run writes only its summary: the "Runs: " prefix
      on the first run of a day, then the character for the two flags. */
  lemma ConciseRunOutput(bs: seq<UpdateBlock>, curl: string, logNewDay: bool, input: RunInput)
    ensures Visible(Concise, RunEvents(bs, curl, logNewDay, input)) ==
      SummaryEvents(logNewDay, RunAnyIPV4(bs, curl, input), RunAnyIPV6(bs, curl, input))
  {
    RunLinesAreLines(bs, curl, input);
    SummaryAfterLines(Concise, RunLines(bs, curl, input), logNewDay,
                      RunAnyIPV4(bs, curl, input), RunAnyIPV6(bs, curl, input));
  }

  /** At the line levels the run writes no summary, and at None nothing. */
  lemma LineModesWriteNoSummary(bs: seq<UpdateBlock>, curl: string, logNewDay: bool, input: RunInput, v: Verbosity)
    requires v.AtLeast(Minimal)
    ensures Visible(v, RunEvents(bs, curl, logNewDay, input)) == Visible(v, RunLines(bs, curl, input))
    ensures Visible(None, RunEvents(bs, curl, logNewDay, input)) == []
  {
    RunLinesAreLines(bs, curl, input);
    SummaryAfterLines(v, RunLines(bs, curl, input), logNewDay,
                      RunAnyIPV4(bs, curl, input), RunAnyIPV6(bs, curl, input));
    NoneIsSilent(RunEvents(bs, curl, logNewDay, input));
  }
}
