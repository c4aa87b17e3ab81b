/** Choosing the run's IPv4 and IPv6 addresses: the `-o` overrides, and the
    fetched address for a family without one (TacitDynDns.cpp:246-277). */
module Resolver {
  import opened Text
  import opened Config
  import opened Process

  /** An override is taken for IPv4 when it holds exactly three dots; failing
      that, for IPv6 when it holds exactly seven colons. */
  predicate TakenAs(a: string, record: Record) {
    match record
    case IPV4 => CountChar(a, '.') == 3
    case IPV6 => CountChar(a, '.') != 3 && CountChar(a, ':') == 7
  }

  /** No argument is taken for both families, and no empty one for either. */
  lemma TakenAsIsExclusive(a: string)
    ensures !(TakenAs(a, IPV4) && TakenAs(a, IPV6))
    ensures TakenAs(a, IPV4) || TakenAs(a, IPV6) ==> a != ""
  {
  }

  /** Index of the last argument taken for `record`, -1 when none is. */
  function LastTakenIndex(args: seq<string>, record: Record): (k: int)
    ensures -1 <= k < |args|
    ensures k >= 0 ==> TakenAs(args[k], record)
    ensures forall j :: k < j < |args| ==> !TakenAs(args[j], record)
    decreases |args|
  {
    if args == [] then -1
    else if TakenAs(args[|args| - 1], record) then |args| - 1
    else LastTakenIndex(args[..|args| - 1], record)
  }

  /** The override in force for `record`: a later argument of the same family
      replaces an earlier one; "" when there is none. */
  function LastOverride(args: seq<string>, record: Record): (r: string)
    ensures r == "" <==> forall j :: 0 <= j < |args| ==> !TakenAs(args[j], record)
    ensures r != "" ==> r in args && TakenAs(r, record)
  {
    var k := LastTakenIndex(args, record);
    if k < 0 then "" else args[k]
  }

  /** The loop at TacitDynDns.cpp:247-253. */
  method SelectOverrides(args: seq<string>) returns (ipv4: string, ipv6: string)
    ensures ipv4 == LastOverride(args, IPV4)
    ensures ipv6 == LastOverride(args, IPV6)
  {
    ipv4, ipv6 := "", "";
    var i := 0;
    while i < |args|
      invariant 0 <= i <= |args|
      invariant ipv4 == LastOverride(args[..i], IPV4)
      invariant ipv6 == LastOverride(args[..i], IPV6)
    {
      assert args[..i + 1][..i] == args[..i];
      if CountChar(args[i], '.') == 3 {
        ipv4 := args[i];
      } else if CountChar(args[i], ':') == 7 {
        ipv6 := args[i];
      }
      i := i + 1;
    }
    assert args[..i] == args;
  }

  /** The address used for a family: the override when there is one,
      otherwise the fetched text up to its first line end.  The fetch's exit
      code plays no part. */
  function ResolvedAddress(override: string, fetched: ProcessResult): (ip: string)
    ensures override != "" ==> ip == override
    ensures override == "" ==> |ip| <= |fetched.output|
  {
    if override == "" then CutAtLineEnd(fetched.output) else override
  }

  /** Without an override the address is the fetched text's first line:
      a prefix of it holding no line end, which stops at the first CR or LF
      when the text has one. */
  lemma FetchedAddressIsFirstLine(fetched: ProcessResult)
    ensures ResolvedAddress("", fetched) <= fetched.output
    ensures '\n' !in ResolvedAddress("", fetched) && '\r' !in ResolvedAddress("", fetched)
    ensures |ResolvedAddress("", fetched)| < |fetched.output| ==>
      fetched.output[|ResolvedAddress("", fetched)|] == '\n' || fetched.output[|ResolvedAddress("", fetched)|] == '\r'
  {
    CutAtLineEndSpec(fetched.output);
  }

  /** Only a family without an accepted override is fetched. */
  predicate Fetches(args: seq<string>, record: Record) {
    LastOverride(args, record) == ""
  }

  /** An accepted override of one family fixes that family's address whatever
      is fetched, and does not stop the other family from being fetched. */
  lemma OverrideSuppressesFetch(args: seq<string>, k: nat, f1: ProcessResult, f2: ProcessResult)
    requires k < |args| && TakenAs(args[k], IPV4)
    requires forall j :: 0 <= j < |args| ==> !TakenAs(args[j], IPV6)
    ensures !Fetches(args, IPV4) && Fetches(args, IPV6)
    ensures ResolvedAddress(LastOverride(args, IPV4), f1) == ResolvedAddress(LastOverride(args, IPV4), f2)
    ensures CountChar(ResolvedAddress(LastOverride(args, IPV4), f1), '.') == 3
  {
  }
}
