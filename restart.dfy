/** Two runs of the program one after the other: each is a new process that
    reads the config file again and loads the state file the previous run
    wrote (TacitDynDns.cpp:489-503). */
module Restart {
  import opened Config
  import opened State
  import opened Engine

  /** A phase in which every attempt succeeded keeps blocks that share a
      domain and record type in agreement: with a valid address the family's
      blocks all end up holding it, and otherwise nothing changes. */
  lemma PhaseKeepsConsistent(bs: seq<UpdateBlock>, record: Record, ip: string, force: bool,
                             curl: string, server: CurlServer)
    requires KeyConsistent(bs)
    requires AllAttemptsSucceed(bs, record, ip, force, curl, server)
    ensures KeyConsistent(PhaseBlocks(bs, record, ip, force, curl, server))
  {
    PhaseIsolation(bs, record, ip, force, curl, server);
    if IsValidAddress(record, ip) {
      AllSucceededFamilyHoldsAddress(bs, record, ip, force, curl, server);
    } else {
      InvalidAddressGating(bs, record, ip, force, curl, server);
    }
  }

  /** The same for the whole run, both phases one after the other. */
  lemma RunKeepsConsistent(bs: seq<UpdateBlock>, curl: string, input: RunInput)
    requires KeyConsistent(bs)
    requires AllAttemptsSucceed(bs, IPV4, RunIPV4(input), input.force, curl, input.server)
    requires AllAttemptsSucceed(AfterIPV4(bs, curl, input), IPV6, RunIPV6(input), input.force, curl, input.server)
    ensures KeyConsistent(RunBlocks(bs, curl, input))
  {
    PhaseKeepsConsistent(bs, IPV4, RunIPV4(input), input.force, curl, input.server);
    PhaseKeepsConsistent(AfterIPV4(bs, curl, input), IPV6, RunIPV6(input), input.force, curl, input.server);
  }

  /** The blocks a process starts from agree on every repeated key: parsed
      blocks have no address, and loading gives blocks with the same key the
      same entry. */
  lemma StartBlocksConsistent(cfg: seq<ConfigBlock>, stateExists: bool, state: seq<StateEntry>)
    ensures KeyConsistent(StartBlocks(cfg, stateExists, state))
  {
    ConfigBlocksEmptyIP(cfg);
    if stateExists {
      LoadKeepsConsistent(ConfigUpdateBlocks(cfg), state);
    }
  }

  /** Idempotence across processes: when all update blocks are in on-change
      mode and every attempt of the first run succeeded, the second run
      starts from exactly the blocks the first one saved. Resolving the same
      addresses without force, it then makes no update call, changes no
      block and sets neither flag. Blocks that repeat a domain and record
      type are allowed. */
  lemma SecondRunIsNoOp(cfg: seq<ConfigBlock>, stateExists: bool, state: seq<StateEntry>,
                        curl: string, first: RunInput, second: RunInput, clock: nat -> nat)
    requires forall i :: 0 <= i < |ConfigUpdateBlocks(cfg)| ==> ConfigUpdateBlocks(cfg)[i].mode == Changed
    requires AllAttemptsSucceed(StartBlocks(cfg, stateExists, state), IPV4, RunIPV4(first), first.force,
                                curl, first.server)
    requires AllAttemptsSucceed(AfterIPV4(StartBlocks(cfg, stateExists, state), curl, first), IPV6,
                                RunIPV6(first), first.force, curl, first.server)
    requires RunIPV4(second) == RunIPV4(first) && RunIPV6(second) == RunIPV6(first) && !second.force
    ensures
      var after := RunBlocks(StartBlocks(cfg, stateExists, state), curl, first);
      var reloaded := StartBlocks(cfg, true, SavedEntries(after, clock, |after|));
      reloaded == after &&
      RunCalls(reloaded, curl, second) == [] &&
      RunBlocks(reloaded, curl, second) == after &&
      !RunAnyIPV4(reloaded, curl, second) && !RunAnyIPV6(reloaded, curl, second)
  {
    var cb := ConfigUpdateBlocks(cfg);
    var loaded := StartBlocks(cfg, stateExists, state);
    var after := RunBlocks(loaded, curl, first);
    ConfigBlocksEmptyIP(cfg);
    assert |loaded| == |cb|;
    assert forall i :: 0 <= i < |cb| ==> loaded[i] == cb[i].(lastUpdateIP := loaded[i].lastUpdateIP);
    StartBlocksConsistent(cfg, stateExists, state);
    RunKeepsConsistent(loaded, curl, first);
    RunKeepsKeys(loaded, curl, first);
    assert forall i :: 0 <= i < |cb| ==> cb[i] == after[i].(lastUpdateIP := "");
    ReloadRestores(after, cb, clock);
    RerunIsNoOp(loaded, curl, first, second);
  }
}
