/** The state file as a sequence of entries: what loading one does to the
    blocks (TacitDynDns.cpp:215-237) and which entries saving writes
    (TacitDynDns.cpp:427-447). */
module State {
  import opened Config

  /** One `(time domain ipv4|ipv6 ip)` expression of the state file. */
  datatype StateEntry = StateEntry(timeStamp: nat, domain: string, tag: string, ip: string)

  function RecordTag(r: Record): string {
    match r
    case IPV4 => "ipv4"
    case IPV6 => "ipv6"
  }

  /** Reading a tag back: anything but "ipv6" reads as IPv4. */
  function TagRecord(tag: string): Record {
    if tag == "ipv6" then IPV6 else IPV4
  }

  lemma TagRoundTrip(r: Record)
    ensures TagRecord(RecordTag(r)) == r
  {
  }

  /** The entry is about this block's domain and record type. */
  predicate EntryMatches(e: StateEntry, b: UpdateBlock) {
    e.domain == b.domain && TagRecord(e.tag) == b.record
  }

  /** Index of the last entry about `b`, -1 when there is none. */
  function LastMatchIndex(entries: seq<StateEntry>, b: UpdateBlock): (k: int)
    ensures -1 <= k < |entries|
    ensures k >= 0 ==> EntryMatches(entries[k], b)
    ensures forall j :: k < j < |entries| ==> !EntryMatches(entries[j], b)
    decreases |entries|
  {
    if entries == [] then -1
    else if EntryMatches(entries[|entries| - 1], b) then |entries| - 1
    else LastMatchIndex(entries[..|entries| - 1], b)
  }

  /** A block after loading: the address of the last entry about it, or its
      own when no entry is about it. */
  function LoadedBlock(b: UpdateBlock, entries: seq<StateEntry>): UpdateBlock {
    var k := LastMatchIndex(entries, b);
    if k < 0 then b else b.(lastUpdateIP := entries[k].ip)
  }

  function LoadedBlocks(blocks: seq<UpdateBlock>, entries: seq<StateEntry>): (r: seq<UpdateBlock>)
    ensures |r| == |blocks|
  {
    seq(|blocks|, i requires 0 <= i < |blocks| => LoadedBlock(blocks[i], entries))
  }

  /** The blocks a run starts from: the config file's update blocks, with
      the state file's addresses loaded when the file exists. */
  function StartBlocks(cfg: seq<ConfigBlock>, stateExists: bool, state: seq<StateEntry>): seq<UpdateBlock> {
    if stateExists then LoadedBlocks(ConfigUpdateBlocks(cfg), state) else ConfigUpdateBlocks(cfg)
  }

  /** The entry saved for block `b` at time `t`. */
  function EntryFor(b: UpdateBlock, t: nat): StateEntry {
    StateEntry(t, b.domain, RecordTag(b.record), b.lastUpdateIP)
  }

  /** The entries written for the first `n` blocks, in order: one for each
      block with a non-empty address, stamped with the clock reading taken
      for that block. */
  function SavedEntries(blocks: seq<UpdateBlock>, clock: nat -> nat, n: nat): seq<StateEntry>
    requires n <= |blocks|
  {
    if n == 0 then []
    else
      var b := blocks[n - 1];
      SavedEntries(blocks, clock, n - 1) + (if b.lastUpdateIP != "" then [EntryFor(b, clock(n - 1))] else [])
  }

  /** Saving writes exactly one entry per block with a non-empty address. */
  lemma {:induction false} SavedEntriesMembers(blocks: seq<UpdateBlock>, clock: nat -> nat, n: nat)
    requires n <= |blocks|
    ensures forall e :: e in SavedEntries(blocks, clock, n) <==>
      exists i :: 0 <= i < n && blocks[i].lastUpdateIP != "" && e == EntryFor(blocks[i], clock(i))
    ensures forall e :: e in SavedEntries(blocks, clock, n) ==> e.ip != "" && (e.tag == "ipv4" || e.tag == "ipv6")
    ensures |SavedEntries(blocks, clock, n)| == |set i | 0 <= i < n && blocks[i].lastUpdateIP != ""|
  {
    SavedEntriesContents(blocks, clock, n);
    SavedEntriesCount(blocks, clock, n);
  }

  /** The saved entries are the entries of the blocks with a non-empty address. */
  lemma {:induction false} SavedEntriesContents(blocks: seq<UpdateBlock>, clock: nat -> nat, n: nat)
    requires n <= |blocks|
    ensures forall e :: e in SavedEntries(blocks, clock, n) <==>
      exists i :: 0 <= i < n && blocks[i].lastUpdateIP != "" && e == EntryFor(blocks[i], clock(i))
    ensures forall e :: e in SavedEntries(blocks, clock, n) ==> e.ip != "" && (e.tag == "ipv4" || e.tag == "ipv6")
  {
    if n > 0 {
      SavedEntriesContents(blocks, clock, n - 1);
    }
  }

  /** Saving writes as many entries as there are blocks with a non-empty
      address among the first `n`. */
  lemma {:induction false} SavedEntriesCount(blocks: seq<UpdateBlock>, clock: nat -> nat, n: nat)
    requires n <= |blocks|
    ensures |SavedEntries(blocks, clock, n)| == |set i | 0 <= i < n && blocks[i].lastUpdateIP != ""|
  {
    if n > 0 {
      SavedEntriesCount(blocks, clock, n - 1);
      NonEmptyBelowStep(blocks, n);
    }
  }

  /** Adding block `n - 1` adds its index to the non-empty ones exactly when
      its address is non-empty. */
  lemma NonEmptyBelowStep(blocks: seq<UpdateBlock>, n: nat)
    requires 0 < n <= |blocks|
    ensures |set i | 0 <= i < n && blocks[i].lastUpdateIP != ""| ==
      |set i | 0 <= i < n - 1 && blocks[i].lastUpdateIP != ""| + (if blocks[n - 1].lastUpdateIP != "" then 1 else 0)
  {
    var a := set i | 0 <= i < n - 1 && blocks[i].lastUpdateIP != "";
    var b := set i | 0 <= i < n && blocks[i].lastUpdateIP != "";
    if blocks[n - 1].lastUpdateIP != "" {
      assert n - 1 !in a;
      assert b == a + {n - 1};
    } else {
      assert b == a;
    }
  }

  /** The two blocks have the same domain and record type. */
  predicate SameKey(a: UpdateBlock, b: UpdateBlock) {
    a.domain == b.domain && a.record == b.record
  }

  /** No two blocks share a domain and record type. */
  predicate UniqueKeys(blocks: seq<UpdateBlock>) {
    forall i, j :: 0 <= i < j < |blocks| ==> !SameKey(blocks[i], blocks[j])
  }

  /** Blocks that share a domain and record type hold the same address. The
      config file may repeat a key; then this is what makes the state file
      unambiguous. */
  predicate KeyConsistent(blocks: seq<UpdateBlock>) {
    forall i, j :: 0 <= i < |blocks| && 0 <= j < |blocks| && SameKey(blocks[i], blocks[j]) ==>
      blocks[i].lastUpdateIP == blocks[j].lastUpdateIP
  }

  /** Distinct keys trivially agree. */
  lemma UniqueKeysConsistent(blocks: seq<UpdateBlock>)
    requires UniqueKeys(blocks)
    ensures KeyConsistent(blocks)
  {
    forall i, j | 0 <= i < |blocks| && 0 <= j < |blocks| && SameKey(blocks[i], blocks[j])
      ensures blocks[i].lastUpdateIP == blocks[j].lastUpdateIP
    {
      if i != j {
        assert false;
      }
    }
  }

  /** Which entry loading picks depends only on the block's domain and record
      type. */
  lemma {:induction false} LastMatchSameKey(entries: seq<StateEntry>, a: UpdateBlock, b: UpdateBlock)
    requires SameKey(a, b)
    ensures LastMatchIndex(entries, a) == LastMatchIndex(entries, b)
    decreases |entries|
  {
    if entries != [] {
      LastMatchSameKey(entries[..|entries| - 1], a, b);
    }
  }

  /** Loading keeps blocks with the same key in agreement. */
  lemma LoadKeepsConsistent(blocks: seq<UpdateBlock>, entries: seq<StateEntry>)
    requires KeyConsistent(blocks)
    ensures KeyConsistent(LoadedBlocks(blocks, entries))
  {
    var r := LoadedBlocks(blocks, entries);
    forall i, j | 0 <= i < |r| && 0 <= j < |r| && SameKey(r[i], r[j])
      ensures r[i].lastUpdateIP == r[j].lastUpdateIP
    {
      LastMatchSameKey(entries, blocks[i], blocks[j]);
    }
  }

  /** Some block among the first `n` with block `k`'s domain and record type
      has a non-empty address, so saving writes an entry about it. */
  predicate SavedBelow(blocks: seq<UpdateBlock>, k: nat, n: nat)
    requires n <= |blocks| && k < |blocks|
  {
    exists j :: 0 <= j < n && SameKey(blocks[j], blocks[k]) && blocks[j].lastUpdateIP != ""
  }

  /** Loading what the first `n` blocks saved into a block with block `k`'s
      domain and record type gives it block `k`'s address when an entry with
      that key was saved, and leaves it alone otherwise. */
  lemma {:induction false} LoadSavedPrefix(blocks: seq<UpdateBlock>, clock: nat -> nat, n: nat,
                                           b: UpdateBlock, k: nat)
    requires n <= |blocks| && k < |blocks| && KeyConsistent(blocks)
    requires SameKey(b, blocks[k])
    ensures LoadedBlock(b, SavedEntries(blocks, clock, n)) ==
      if SavedBelow(blocks, k, n) then b.(lastUpdateIP := blocks[k].lastUpdateIP) else b
  {
    if n > 0 {
      var before := SavedEntries(blocks, clock, n - 1);
      var last := blocks[n - 1];
      LoadSavedPrefix(blocks, clock, n - 1, b, k);
      if last.lastUpdateIP != "" {
        var e := EntryFor(last, clock(n - 1));
        assert SavedEntries(blocks, clock, n) == before + [e];
        TagRoundTrip(last.record);
        if SameKey(last, blocks[k]) {
          assert SavedBelow(blocks, k, n);
          LaterEntryWins(b, before, e);
        } else {
          assert !EntryMatches(e, b);
          assert SavedBelow(blocks, k, n) == SavedBelow(blocks, k, n - 1);
          OtherEntryIgnored(b, before, e);
        }
      } else {
        assert SavedEntries(blocks, clock, n) == before;
        assert SavedBelow(blocks, k, n) == SavedBelow(blocks, k, n - 1);
      }
    }
  }

  /** Save-then-load: when blocks that share a domain and record type hold
      the same address (in particular when no two share one), loading the
      saved entries into blocks with the same keys restores every non-empty
      address and leaves the other blocks as they are. */
  lemma SaveThenLoad(blocks: seq<UpdateBlock>, target: seq<UpdateBlock>, clock: nat -> nat)
    requires KeyConsistent(blocks) && |target| == |blocks|
    requires forall i :: 0 <= i < |blocks| ==> SameKey(target[i], blocks[i])
    ensures forall i :: 0 <= i < |blocks| ==>
      LoadedBlocks(target, SavedEntries(blocks, clock, |blocks|))[i] ==
        if blocks[i].lastUpdateIP != "" then target[i].(lastUpdateIP := blocks[i].lastUpdateIP) else target[i]
  {
    forall i | 0 <= i < |blocks|
      ensures LoadedBlock(target[i], SavedEntries(blocks, clock, |blocks|)) ==
        if blocks[i].lastUpdateIP != "" then target[i].(lastUpdateIP := blocks[i].lastUpdateIP) else target[i]
    {
      LoadSavedPrefix(blocks, clock, |blocks|, target[i], i);
      if blocks[i].lastUpdateIP != "" {
        assert SavedBelow(blocks, i, |blocks|);
      }
    }
  }

  /** Saving blocks and loading the file into the same blocks without their
      addresses gives the saved blocks back. */
  lemma ReloadRestores(blocks: seq<UpdateBlock>, target: seq<UpdateBlock>, clock: nat -> nat)
    requires KeyConsistent(blocks) && |target| == |blocks|
    requires forall i :: 0 <= i < |blocks| ==> target[i] == blocks[i].(lastUpdateIP := "")
    ensures LoadedBlocks(target, SavedEntries(blocks, clock, |blocks|)) == blocks
  {
    SaveThenLoad(blocks, target, clock);
  }

  /** Later entries win: of two entries about the same block, the second
      decides its address. */
  lemma LaterEntryWins(b: UpdateBlock, entries: seq<StateEntry>, e: StateEntry)
    requires EntryMatches(e, b)
    ensures LoadedBlock(b, entries + [e]) == b.(lastUpdateIP := e.ip)
  {
  }

  /** An entry about another domain or record type leaves the block alone. */
  lemma OtherEntryIgnored(b: UpdateBlock, entries: seq<StateEntry>, e: StateEntry)
    requires !EntryMatches(e, b)
    ensures LoadedBlock(b, entries + [e]) == LoadedBlock(b, entries)
  {
    assert (entries + [e])[..|entries|] == entries;
  }
}
