/** The configuration the updater runs with: the environment settings, the
    update blocks, and how the key/value entries of a config block are mapped
    onto them (TacitDynDns.cpp:40-100, 137-212). */
module Config {

  datatype Record = IPV4 | IPV6
  datatype Protocol = HTTPS | HTTP
  datatype Mode = Changed | Always

  /** Log verbosity, totally ordered None < Concise < Minimal < Normal < Full. */
  datatype Verbosity = None | Concise | Minimal | Normal | Full {
    function Rank(): nat {
      match this
      case None => 0
      case Concise => 1
      case Minimal => 2
      case Normal => 3
      case Full => 4
    }

    /** `Verbosity >= level` in the source. */
    predicate AtLeast(level: Verbosity) {
      Rank() >= level.Rank()
    }
  }

  /** One `update` block; `lastUpdateIP` is the address last confirmed for it. */
  datatype UpdateBlock = UpdateBlock(
    domain: string,
    service: string,
    record: Record,
    protocol: Protocol,
    username: string,
    password: string,
    mode: Mode,
    lastUpdateIP: string)

  const DefaultBlock := UpdateBlock("", "", IPV4, HTTPS, "", "", Changed, "")

  /** The environment settings (the namespace's global variables). */
  datatype Environment = Environment(
    stateFile: string,
    logFile: string,
    verbosity: Verbosity,
    ipLookup: string,
    curl: string)

  const DefaultEnvironment := Environment("TacitDynDns.ips", "TacitDynDns.log", Concise, "ifconfig.co", "curl.exe")

  /** One `(key value)` entry of a config block, already tokenised. */
  datatype Entry = Entry(key: string, value: string)

  /** One top-level block of the config file: its type and its entries. */
  datatype ConfigBlock = ConfigBlock(kind: string, entries: seq<Entry>)

  // ---------------------------------------------------------------------
  // Environment block

  predicate IsVerbosityName(name: string) {
    name in ["none", "concise", "minimal", "normal", "full"]
  }

  function VerbosityNamed(name: string): Verbosity
    requires IsVerbosityName(name)
  {
    if name == "none" then None
    else if name == "concise" then Concise
    else if name == "minimal" then Minimal
    else if name == "normal" then Normal
    else Full
  }

  /** The effect of one entry of an `environment` block. */
  function ApplyEnvEntry(env: Environment, e: Entry): Environment {
    if e.key == "statefile" then env.(stateFile := e.value)
    else if e.key == "logfile" then env.(logFile := e.value)
    else if e.key == "verbosity" then
      (if IsVerbosityName(e.value) then env.(verbosity := VerbosityNamed(e.value)) else env)
    else if e.key == "iplookup" then env.(ipLookup := e.value)
    else if e.key == "curl" then env.(curl := e.value)
    else env
  }

  /** The entries of one block applied in order. */
  function ApplyEnv(env: Environment, es: seq<Entry>): Environment
    decreases |es|
  {
    if es == [] then env else ApplyEnvEntry(ApplyEnv(env, es[..|es| - 1]), es[|es| - 1])
  }

  /** The value of the last entry with `key`, or `default` when there is none. */
  function LastValue(es: seq<Entry>, key: string, default: string): string
    decreases |es|
  {
    if es == [] then default
    else if es[|es| - 1].key == key then es[|es| - 1].value
    else LastValue(es[..|es| - 1], key, default)
  }

  /** The last verbosity entry naming a known level, or `default`. */
  function LastVerbosity(es: seq<Entry>, default: Verbosity): Verbosity
    decreases |es|
  {
    if es == [] then default
    else if es[|es| - 1].key == "verbosity" && IsVerbosityName(es[|es| - 1].value)
    then VerbosityNamed(es[|es| - 1].value)
    else LastVerbosity(es[..|es| - 1], default)
  }

  /** Every setting of an environment block is its last entry's value (an
      unrecognised verbosity name leaves the level as it was), and entries
      with other keys are ignored. */
  lemma {:induction false} EnvironmentSettings(env: Environment, es: seq<Entry>)
    ensures ApplyEnv(env, es).stateFile == LastValue(es, "statefile", env.stateFile)
    ensures ApplyEnv(env, es).logFile == LastValue(es, "logfile", env.logFile)
    ensures ApplyEnv(env, es).verbosity == LastVerbosity(es, env.verbosity)
    ensures ApplyEnv(env, es).ipLookup == LastValue(es, "iplookup", env.ipLookup)
    ensures ApplyEnv(env, es).curl == LastValue(es, "curl", env.curl)
    decreases |es|
  {
    if es != [] {
      EnvironmentSettings(env, es[..|es| - 1]);
    }
  }

  // ---------------------------------------------------------------------
  // Update block

  predicate IsIPv6RecordName(name: string) {
    name == "ipv6" || name == "AAAA"
  }

  /** The effect of one entry of an `update` block. */
  function ApplyUpdateEntry(b: UpdateBlock, e: Entry): UpdateBlock {
    if e.key == "domain" then b.(domain := e.value)
    else if e.key == "service" then b.(service := e.value)
    else if e.key == "record" then (if IsIPv6RecordName(e.value) then b.(record := IPV6) else b)
    else if e.key == "protocol" then (if e.value == "http" then b.(protocol := HTTP) else b)
    else if e.key == "username" then b.(username := e.value)
    else if e.key == "password" then b.(password := e.value)
    else if e.key == "mode" then (if e.value == "always" then b.(mode := Always) else b)
    else b
  }

  function ApplyUpdate(b: UpdateBlock, es: seq<Entry>): UpdateBlock
    decreases |es|
  {
    if es == [] then b else ApplyUpdateEntry(ApplyUpdate(b, es[..|es| - 1]), es[|es| - 1])
  }

  /** The block an `update` block's entries describe. */
  function BlockFromEntries(es: seq<Entry>): UpdateBlock {
    ApplyUpdate(DefaultBlock, es)
  }

  /** Applying entries to any starting block: each string setting is the
      last entry's value, and the last confirmed address is untouched. */
  lemma {:induction false} UpdateStringSettings(b: UpdateBlock, es: seq<Entry>)
    ensures ApplyUpdate(b, es).domain == LastValue(es, "domain", b.domain)
    ensures ApplyUpdate(b, es).service == LastValue(es, "service", b.service)
    ensures ApplyUpdate(b, es).username == LastValue(es, "username", b.username)
    ensures ApplyUpdate(b, es).password == LastValue(es, "password", b.password)
    ensures ApplyUpdate(b, es).lastUpdateIP == b.lastUpdateIP
    decreases |es|
  {
    if es != [] {
      UpdateStringSettings(b, es[..|es| - 1]);
    }
  }

  /** The record type only ever moves from IPv4 to IPv6: one "ipv6" or
      "AAAA" record entry anywhere decides it, and a later "ipv4" does not
      undo it. */
  lemma {:induction false} UpdateRecordSetting(b: UpdateBlock, es: seq<Entry>)
    ensures ApplyUpdate(b, es).record == IPV6 <==>
      b.record == IPV6 || exists i :: 0 <= i < |es| && es[i].key == "record" && IsIPv6RecordName(es[i].value)
    decreases |es|
  {
    if es != [] {
      var init := es[..|es| - 1];
      UpdateRecordSetting(b, init);
      forall i | 0 <= i < |init| ensures init[i] == es[i] { }
    }
  }

  /** The protocol only ever moves from HTTPS to HTTP. */
  lemma {:induction false} UpdateProtocolSetting(b: UpdateBlock, es: seq<Entry>)
    ensures ApplyUpdate(b, es).protocol == HTTP <==>
      b.protocol == HTTP || exists i :: 0 <= i < |es| && es[i] == Entry("protocol", "http")
    decreases |es|
  {
    if es != [] {
      var init := es[..|es| - 1];
      UpdateProtocolSetting(b, init);
      forall i | 0 <= i < |init| ensures init[i] == es[i] { }
    }
  }

  /** The mode only ever moves from on-change to always. */
  lemma {:induction false} UpdateModeSetting(b: UpdateBlock, es: seq<Entry>)
    ensures ApplyUpdate(b, es).mode == Always <==>
      b.mode == Always || exists i :: 0 <= i < |es| && es[i] == Entry("mode", "always")
    decreases |es|
  {
    if es != [] {
      var init := es[..|es| - 1];
      UpdateModeSetting(b, init);
      forall i | 0 <= i < |init| ensures init[i] == es[i] { }
    }
  }

  /** A parsed block starts from the defaults: IPv4 unless some record entry
      says "ipv6" or "AAAA", HTTPS unless some protocol entry says "http",
      on-change unless some mode entry says "always", and no last address. */
  lemma ParsedBlock(es: seq<Entry>)
    ensures BlockFromEntries(es).domain == LastValue(es, "domain", "")
    ensures BlockFromEntries(es).service == LastValue(es, "service", "")
    ensures BlockFromEntries(es).username == LastValue(es, "username", "")
    ensures BlockFromEntries(es).password == LastValue(es, "password", "")
    ensures BlockFromEntries(es).lastUpdateIP == ""
    ensures BlockFromEntries(es).record == IPV6 <==>
      exists i :: 0 <= i < |es| && es[i].key == "record" && IsIPv6RecordName(es[i].value)
    ensures BlockFromEntries(es).protocol == HTTP <==>
      exists i :: 0 <= i < |es| && es[i] == Entry("protocol", "http")
    ensures BlockFromEntries(es).mode == Always <==>
      exists i :: 0 <= i < |es| && es[i] == Entry("mode", "always")
  {
    UpdateStringSettings(DefaultBlock, es);
    UpdateRecordSetting(DefaultBlock, es);
    UpdateProtocolSetting(DefaultBlock, es);
    UpdateModeSetting(DefaultBlock, es);
  }

  // ---------------------------------------------------------------------
  // Whole config file

  /** The environment after every `environment` block of the file. */
  function ConfigEnvironment(env: Environment, cfg: seq<ConfigBlock>): Environment
    decreases |cfg|
  {
    if cfg == [] then env
    else
      var before := ConfigEnvironment(env, cfg[..|cfg| - 1]);
      var last := cfg[|cfg| - 1];
      if last.kind == "environment" then ApplyEnv(before, last.entries) else before
  }

  /** The blocks described by the `update` blocks of the file, in order. */
  function ConfigUpdateBlocks(cfg: seq<ConfigBlock>): seq<UpdateBlock>
    decreases |cfg|
  {
    if cfg == [] then []
    else
      var before := ConfigUpdateBlocks(cfg[..|cfg| - 1]);
      var last := cfg[|cfg| - 1];
      if last.kind == "update" then before + [BlockFromEntries(last.entries)] else before
  }

  /** Every block read from the file starts with no last confirmed address. */
  lemma {:induction false} ConfigBlocksEmptyIP(cfg: seq<ConfigBlock>)
    ensures forall i :: 0 <= i < |ConfigUpdateBlocks(cfg)| ==> ConfigUpdateBlocks(cfg)[i].lastUpdateIP == ""
    decreases |cfg|
  {
    if cfg != [] {
      ConfigBlocksEmptyIP(cfg[..|cfg| - 1]);
      ParsedBlock(cfg[|cfg| - 1].entries);
    }
  }

  /** One block per `update` block of the file, none for the other kinds. */
  lemma {:induction false} ConfigUpdateBlockCount(cfg: seq<ConfigBlock>)
    ensures |ConfigUpdateBlocks(cfg)| == |set i | 0 <= i < |cfg| && cfg[i].kind == "update"|
    decreases |cfg|
  {
    if cfg != [] {
      var n := |cfg| - 1;
      ConfigUpdateBlockCount(cfg[..n]);
      var a := set i | 0 <= i < n && cfg[..n][i].kind == "update";
      var b := set i | 0 <= i < |cfg| && cfg[i].kind == "update";
      assert |ConfigUpdateBlocks(cfg)| == |a| + (if cfg[n].kind == "update" then 1 else 0);
      if cfg[n].kind == "update" {
        assert b == a + {n};
      } else {
        assert b == a;
      }
    }
  }
}
