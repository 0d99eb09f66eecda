/**
 * How BUILD_MAP reads its entries off the instruction feed: each entry is
 * the block of instructions up to the next STORE_MAP, handed to the block
 * decompiler, which must give back exactly two nodes.  Positions in the
 * feed stand for the instructions already popped off its front.  The node
 * type is a parameter here, so these facts hold whatever the decompiler
 * produces.
 */
module MapBlocks {
  import opened Wrappers
  import opened Ast

  /** The instruction that closes a dictionary entry. */
  predicate IsStoreMap(instr: Instr) {
    instr.opname == "STORE_MAP"
  }

  /** No instruction of a block is a STORE_MAP. */
  predicate FreeOfStoreMap(block: seq<Instr>) {
    forall i | 0 <= i < |block| :: !IsStoreMap(block[i])
  }

  /** The position of the first STORE_MAP of the feed at or after i, or the feed's length if it has none. */
  function StoreMapFrom(feed: seq<Instr>, i: nat): (k: nat)
    requires i <= |feed|
    ensures i <= k <= |feed| && (k < |feed| ==> IsStoreMap(feed[k]))
    ensures forall j | i <= j < k :: !IsStoreMap(feed[j])
    decreases |feed| - i
  {
    if i == |feed| || IsStoreMap(feed[i]) then i else StoreMapFrom(feed, i + 1)
  }

  /** A STORE_MAP at position k with none between i and k is the first one at or after i. */
  lemma StoreMapFromIs(feed: seq<Instr>, i: nat, k: nat)
    requires i <= k < |feed| && IsStoreMap(feed[k])
    requires forall j | i <= j < k :: !IsStoreMap(feed[j])
    ensures StoreMapFrom(feed, i) == k
  {
  }

  /** One dictionary entry's value and key, and the position just after its STORE_MAP. */
  datatype Entry<T> = Entry(value: T, key: T, next: nat)

  /**
   * One entry of BUILD_MAP, read from position `at`: the instructions up to
   * the next STORE_MAP, which is consumed and dropped, decompiled on their
   * own into exactly two nodes (else AssertionError) -- the value, then the
   * key.  A feed that runs out before a STORE_MAP raises IndexError.
   */
  function MapEntry<T>(feed: seq<Instr>, at: nat, decompile: seq<Instr> -> seq<T>): (r: Result<Entry<T>>)
    requires at <= |feed|
    ensures r.Ok? ==> at < r.value.next <= |feed| && IsStoreMap(feed[r.value.next - 1])
    ensures r.Ok? ==> r.value.next - 1 == StoreMapFrom(feed, at)
    ensures r.Ok? ==> var items := decompile(feed[at..r.value.next - 1]);
      |items| == 2 && r.value.value == items[0] && r.value.key == items[1]
    ensures r.Fail? ==> r.error == IndexError || r.error == AssertionError
  {
    var k := StoreMapFrom(feed, at);
    if k == |feed| then Fail(IndexError)
    else
      var items := decompile(feed[at..k]);
      if |items| != 2 then Fail(AssertionError) else Ok(Entry(items[0], items[1], k + 1))
  }

  /** The IndexError of one entry: it is raised exactly when no STORE_MAP is left in the feed. */
  lemma MapEntryRunsOut<T>(feed: seq<Instr>, at: nat, decompile: seq<Instr> -> seq<T>)
    requires at <= |feed|
    ensures MapEntry(feed, at, decompile) == Fail(IndexError) <==> FreeOfStoreMap(feed[at..])
  {
    var k := StoreMapFrom(feed, at);
    if k < |feed| {
      assert feed[at..][k - at] == feed[k];
    } else {
      assert forall j | 0 <= j < |feed| - at :: feed[at..][j] == feed[at + j];
    }
  }

  /** The keys and values of dictionary entries, and the position after the last one. */
  datatype Entries<T> = Entries(keys: seq<T>, values: seq<T>, next: nat)

  /**
   * BUILD_MAP's entries: n entries read one after the other from position
   * `at`, their keys and values kept in the order the entries come; the
   * first entry that fails stops the read with its error.
   */
  function MapEntries<T>(feed: seq<Instr>, at: nat, n: nat, decompile: seq<Instr> -> seq<T>): (r: Result<Entries<T>>)
    requires at <= |feed|
    ensures r.Ok? ==> |r.value.keys| == n && |r.value.values| == n && at + n <= r.value.next <= |feed|
    ensures r.Fail? ==> r.error == IndexError || r.error == AssertionError
    decreases n
  {
    if n == 0 then Ok(Entries([], [], at))
    else
      match MapEntry(feed, at, decompile)
      case Fail(e) => Fail(e)
      case Ok(entry) =>
        match MapEntries(feed, entry.next, n - 1, decompile)
        case Fail(e) => Fail(e)
        case Ok(more) => Ok(Entries([entry.key] + more.keys, [entry.value] + more.values, more.next))
  }

  /** Reading no entries reads nothing. */
  lemma MapEntriesNone<T>(feed: seq<Instr>, at: nat, decompile: seq<Instr> -> seq<T>)
    requires at <= |feed|
    ensures MapEntries(feed, at, 0, decompile) == Ok(Entries([], [], at))
  {
  }

  /**
   * A successful read of n > 0 entries is a successful read of one entry
   * followed by a successful read of the other n - 1.
   */
  lemma MapEntriesFirst<T>(feed: seq<Instr>, at: nat, n: nat, decompile: seq<Instr> -> seq<T>)
    requires at <= |feed| && n > 0 && MapEntries(feed, at, n, decompile).Ok?
    ensures MapEntry(feed, at, decompile).Ok?
    ensures var entry := MapEntry(feed, at, decompile).value;
      && MapEntries(feed, entry.next, n - 1, decompile).Ok?
      && var more := MapEntries(feed, entry.next, n - 1, decompile).value;
         MapEntries(feed, at, n, decompile).value == Entries([entry.key] + more.keys, [entry.value] + more.values, more.next)
  {
  }

  /** One more entry in front of the others adds its value and key in front of theirs. */
  lemma MapEntriesStep<T>(feed: seq<Instr>, at: nat, n: nat, decompile: seq<Instr> -> seq<T>)
    requires at <= |feed| && n > 0 && MapEntry(feed, at, decompile).Ok?
    requires MapEntries(feed, MapEntry(feed, at, decompile).value.next, n - 1, decompile).Ok?
    ensures var entry := MapEntry(feed, at, decompile).value;
      var more := MapEntries(feed, entry.next, n - 1, decompile).value;
      && MapEntries(feed, at, n, decompile).Ok?
      && MapEntries(feed, at, n, decompile).value == Entries([entry.key] + more.keys, [entry.value] + more.values, more.next)
  {
  }

  /**
   * One more entry read after i successful ones adds its key and value at
   * the end: the order in which BUILD_MAP's loop collects them.
   */
  lemma {:induction false} MapEntriesSnoc<T>(feed: seq<Instr>, at: nat, i: nat, decompile: seq<Instr> -> seq<T>)
    requires at <= |feed| && MapEntries(feed, at, i, decompile).Ok?
    requires MapEntry(feed, MapEntries(feed, at, i, decompile).value.next, decompile).Ok?
    ensures var e := MapEntries(feed, at, i, decompile).value;
      var entry := MapEntry(feed, e.next, decompile).value;
      && MapEntries(feed, at, i + 1, decompile).Ok?
      && MapEntries(feed, at, i + 1, decompile).value == Entries(e.keys + [entry.key], e.values + [entry.value], entry.next)
    decreases i
  {
    if i > 0 {
      MapEntriesFirst(feed, at, i, decompile);
      var first := MapEntry(feed, at, decompile).value;
      var more := MapEntries(feed, first.next, i - 1, decompile).value;
      MapEntriesSnoc(feed, first.next, i - 1, decompile);
      var entry := MapEntry(feed, more.next, decompile).value;
      MapEntriesStep(feed, at, i + 1, decompile);
      Associative([first.key], more.keys, [entry.key]);
      Associative([first.value], more.values, [entry.value]);
    } else {
      var entry := MapEntry(feed, at, decompile).value;
      assert MapEntries(feed, entry.next, 0, decompile).value == Entries([], [], entry.next);
    }
  }

  /** Concatenation is associative. */
  lemma Associative<T>(front: seq<T>, middle: seq<T>, back: seq<T>)
    ensures front + (middle + back) == front + middle + back
  {
  }

  /**
   * An entry that fails after i successful ones stops every longer read
   * with its error.
   */
  lemma {:induction false} MapEntriesStop<T>(feed: seq<Instr>, at: nat, i: nat, n: nat, decompile: seq<Instr> -> seq<T>)
    requires at <= |feed| && i < n && MapEntries(feed, at, i, decompile).Ok?
    requires MapEntry(feed, MapEntries(feed, at, i, decompile).value.next, decompile).Fail?
    ensures MapEntries(feed, at, n, decompile).Fail?
    ensures MapEntries(feed, at, n, decompile).error == MapEntry(feed, MapEntries(feed, at, i, decompile).value.next, decompile).error
    decreases i
  {
    if i > 0 {
      MapEntriesStop(feed, MapEntry(feed, at, decompile).value.next, i - 1, n - 1, decompile);
    }
  }

  /** Every instruction of the sequence is a STORE_MAP. */
  predicate AllStoreMaps(storeMaps: seq<Instr>) {
    forall i | 0 <= i < |storeMaps| :: IsStoreMap(storeMaps[i])
  }

  /**
   * How a compiler lays out dictionary entries: each entry's block followed
   * by its own STORE_MAP (which carries the entry's line number).
   */
  function MapLayout(blocks: seq<seq<Instr>>, storeMaps: seq<Instr>): seq<Instr>
    requires |storeMaps| == |blocks|
  {
    if |blocks| == 0 then [] else blocks[0] + [storeMaps[0]] + MapLayout(blocks[1..], storeMaps[1..])
  }

  /** The layout of several entries is the first entry's block and STORE_MAP, then the layout of the others. */
  lemma MapLayoutStep(blocks: seq<seq<Instr>>, storeMaps: seq<Instr>)
    requires |blocks| > 0 && |storeMaps| == |blocks|
    ensures MapLayout(blocks, storeMaps) == blocks[0] + [storeMaps[0]] + MapLayout(blocks[1..], storeMaps[1..])
  {
  }

  /** An entry's block standing at position `at` of the feed, followed by a STORE_MAP, is read as that entry. */
  lemma MapEntryOfBlock<T>(feed: seq<Instr>, at: nat, block: seq<Instr>, decompile: seq<Instr> -> seq<T>)
    requires at + |block| < |feed| && feed[at..at + |block|] == block && IsStoreMap(feed[at + |block|])
    requires FreeOfStoreMap(block) && |decompile(block)| == 2
    ensures var items := decompile(block);
      MapEntry(feed, at, decompile) == Ok(Entry(items[0], items[1], at + |block| + 1))
  {
    var k := at + |block|;
    assert forall j | at <= j < k :: feed[j] == block[j - at];
    StoreMapFromIs(feed, at, k);
  }

  /**
   * The entry blocks stand one after the other in the feed from position
   * `at`, each followed by a STORE_MAP.
   */
  predicate LaidOutAt(feed: seq<Instr>, at: nat, blocks: seq<seq<Instr>>)
    decreases |blocks|
  {
    if |blocks| == 0 then at <= |feed|
    else
      var k := at + |blocks[0]|;
      && k < |feed| && feed[at..k] == blocks[0] && IsStoreMap(feed[k])
      && LaidOutAt(feed, k + 1, blocks[1..])
  }

  /** The number of instructions the layout of the blocks takes. */
  function LayoutSize(blocks: seq<seq<Instr>>): nat {
    if |blocks| == 0 then 0 else |blocks[0]| + 1 + LayoutSize(blocks[1..])
  }

  /** The layout of the blocks, with anything before and after it, stands where it was put. */
  lemma {:induction false} LayoutLaidOut(pre: seq<Instr>, blocks: seq<seq<Instr>>, storeMaps: seq<Instr>, tail: seq<Instr>)
    requires |storeMaps| == |blocks| && AllStoreMaps(storeMaps)
    ensures LaidOutAt(pre + MapLayout(blocks, storeMaps) + tail, |pre|, blocks)
    ensures |MapLayout(blocks, storeMaps)| == LayoutSize(blocks)
    decreases |blocks|
  {
    if |blocks| > 0 {
      var block, rest := blocks[0], MapLayout(blocks[1..], storeMaps[1..]);
      var pre' := pre + block + [storeMaps[0]];
      MapLayoutStep(blocks, storeMaps);
      assert AllStoreMaps(storeMaps[1..]) by {
        assert forall i | 0 <= i < |storeMaps| - 1 :: storeMaps[1..][i] == storeMaps[i + 1];
      }
      var feed := pre + MapLayout(blocks, storeMaps) + tail;
      assert feed == pre' + rest + tail == pre + block + [storeMaps[0]] + (rest + tail);
      LayoutLaidOut(pre', blocks[1..], storeMaps[1..], tail);
      BlockStandsAt(pre, block, storeMaps[0], rest + tail);
    }
  }

  /** A block put between a prefix and its STORE_MAP stands right after the prefix. */
  lemma BlockStandsAt(pre: seq<Instr>, block: seq<Instr>, storeMap: Instr, after: seq<Instr>)
    ensures var feed := pre + block + [storeMap] + after;
      feed[|pre|..|pre| + |block|] == block && feed[|pre| + |block|] == storeMap
  {
    var feed := pre + block + [storeMap] + after;
    assert forall j | 0 <= j < |block| :: feed[|pre| + j] == block[j];
  }

  /** Every block decompiles into exactly two nodes. */
  ghost predicate PairsOnly<T>(blocks: seq<seq<Instr>>, decompile: seq<Instr> -> seq<T>) {
    forall i | 0 <= i < |blocks| :: |decompile(blocks[i])| == 2
  }

  /** Dropping the first block keeps every block decompiling into two nodes. */
  lemma PairsOnlyTail<T>(blocks: seq<seq<Instr>>, decompile: seq<Instr> -> seq<T>)
    requires |blocks| > 0 && PairsOnly(blocks, decompile)
    ensures PairsOnly(blocks[1..], decompile)
  {
    assert forall i | 0 <= i < |blocks| - 1 :: blocks[1..][i] == blocks[i + 1];
  }

  /** The keys the entry blocks decompile to, one per block, in order: the second node of each. */
  function EntryKeys<T>(blocks: seq<seq<Instr>>, decompile: seq<Instr> -> seq<T>): (keys: seq<T>)
    requires PairsOnly(blocks, decompile)
    ensures |keys| == |blocks| && forall i | 0 <= i < |blocks| :: keys[i] == decompile(blocks[i])[1]
    decreases |blocks|
  {
    if |blocks| == 0 then []
    else
      PairsOnlyTail(blocks, decompile);
      var others := EntryKeys(blocks[1..], decompile);
      assert forall i | 1 <= i < |blocks| :: blocks[i] == blocks[1..][i - 1];
      [decompile(blocks[0])[1]] + others
  }

  /** The values the entry blocks decompile to, one per block, in order: the first node of each. */
  function EntryValues<T>(blocks: seq<seq<Instr>>, decompile: seq<Instr> -> seq<T>): (values: seq<T>)
    requires PairsOnly(blocks, decompile)
    ensures |values| == |blocks| && forall i | 0 <= i < |blocks| :: values[i] == decompile(blocks[i])[0]
    decreases |blocks|
  {
    if |blocks| == 0 then []
    else
      PairsOnlyTail(blocks, decompile);
      var others := EntryValues(blocks[1..], decompile);
      assert forall i | 1 <= i < |blocks| :: blocks[i] == blocks[1..][i - 1];
      [decompile(blocks[0])[0]] + others
  }

  /** Well-formed entry blocks: none holds a STORE_MAP, and each decompiles into two nodes. */
  ghost predicate EntryBlocks<T>(blocks: seq<seq<Instr>>, decompile: seq<Instr> -> seq<T>) {
    PairsOnly(blocks, decompile) && forall i | 0 <= i < |blocks| :: FreeOfStoreMap(blocks[i])
  }

  /** Dropping the first well-formed block leaves well-formed blocks. */
  lemma EntryBlocksTail<T>(blocks: seq<seq<Instr>>, decompile: seq<Instr> -> seq<T>)
    requires |blocks| > 0 && EntryBlocks(blocks, decompile)
    ensures EntryBlocks(blocks[1..], decompile)
  {
    PairsOnlyTail(blocks, decompile);
    assert forall i | 0 <= i < |blocks| - 1 :: blocks[1..][i] == blocks[i + 1];
  }

  /**
   * Reading back entries laid out as a compiler does, wherever they stand in
   * the feed, gives in order the value and key each entry's block
   * decompiles to, and stops just after the last STORE_MAP.
   */
  lemma {:induction false} MapEntriesOfLayoutAt<T>(feed: seq<Instr>, at: nat, blocks: seq<seq<Instr>>, decompile: seq<Instr> -> seq<T>)
    requires EntryBlocks(blocks, decompile) && LaidOutAt(feed, at, blocks)
    ensures at + LayoutSize(blocks) <= |feed|
    ensures MapEntries(feed, at, |blocks|, decompile).Ok?
      && MapEntries(feed, at, |blocks|, decompile).value == Entries(EntryKeys(blocks, decompile), EntryValues(blocks, decompile), at + LayoutSize(blocks))
    decreases |blocks|
  {
    if |blocks| == 0 {
      MapEntriesNone(feed, at, decompile);
    } else {
      var others := blocks[1..];
      var next := at + |blocks[0]| + 1;
      EntryBlocksTail(blocks, decompile);
      assert LaidOutAt(feed, next, others);
      MapEntriesOfLayoutAt(feed, next, others, decompile);
      LaidOutAtStep(feed, at, blocks, decompile);
    }
  }

  /** The step of MapEntriesOfLayoutAt: the first block's entry in front of what the others read back to. */
  lemma LaidOutAtStep<T>(feed: seq<Instr>, at: nat, blocks: seq<seq<Instr>>, decompile: seq<Instr> -> seq<T>)
    requires |blocks| > 0 && EntryBlocks(blocks, decompile) && LaidOutAt(feed, at, blocks)
    requires var others, next := blocks[1..], at + |blocks[0]| + 1;
      && PairsOnly(others, decompile)
      && next + LayoutSize(others) <= |feed|
      && MapEntries(feed, next, |others|, decompile).Ok?
        && MapEntries(feed, next, |others|, decompile).value == Entries(EntryKeys(others, decompile), EntryValues(others, decompile), next + LayoutSize(others))
    ensures at + LayoutSize(blocks) <= |feed|
    ensures MapEntries(feed, at, |blocks|, decompile).Ok?
      && MapEntries(feed, at, |blocks|, decompile).value == Entries(EntryKeys(blocks, decompile), EntryValues(blocks, decompile), at + LayoutSize(blocks))
  {
    var block, others := blocks[0], blocks[1..];
    var next := at + |block| + 1;
    EntriesOfBlocksStep(blocks, decompile);
    var more := Entries(EntryKeys(others, decompile), EntryValues(others, decompile), next + LayoutSize(others));
    assert |others| == |blocks| - 1;
    assert FreeOfStoreMap(block) && |decompile(block)| == 2;
    EntryThenEntries(feed, at, |blocks|, block, more, decompile);
    var items := decompile(block);
    assert LayoutSize(blocks) == |block| + 1 + LayoutSize(others);
    var whole := Entries([items[1]] + more.keys, [items[0]] + more.values, more.next);
    assert whole == Entries(EntryKeys(blocks, decompile), EntryValues(blocks, decompile), at + LayoutSize(blocks));
  }

  /** An entry's block and STORE_MAP in front of entries read successfully adds that entry in front of theirs. */
  lemma EntryThenEntries<T>(feed: seq<Instr>, at: nat, n: nat, block: seq<Instr>, more: Entries<T>, decompile: seq<Instr> -> seq<T>)
    requires n > 0 && at + |block| < |feed| && feed[at..at + |block|] == block && IsStoreMap(feed[at + |block|])
    requires FreeOfStoreMap(block) && |decompile(block)| == 2
    requires MapEntries(feed, at + |block| + 1, n - 1, decompile).Ok?
    requires MapEntries(feed, at + |block| + 1, n - 1, decompile).value == more
    ensures var items := decompile(block);
      MapEntries(feed, at, n, decompile).Ok?
      && MapEntries(feed, at, n, decompile).value == Entries([items[1]] + more.keys, [items[0]] + more.values, more.next)
  {
    MapEntryOfBlock(feed, at, block, decompile);
    MapEntriesStep(feed, at, n, decompile);
  }

  /** The keys and values of several blocks are those of the first, then those of the others. */
  lemma EntriesOfBlocksStep<T>(blocks: seq<seq<Instr>>, decompile: seq<Instr> -> seq<T>)
    requires |blocks| > 0 && PairsOnly(blocks, decompile)
    ensures PairsOnly(blocks[1..], decompile)
    ensures EntryKeys(blocks, decompile) == [decompile(blocks[0])[1]] + EntryKeys(blocks[1..], decompile)
    ensures EntryValues(blocks, decompile) == [decompile(blocks[0])[0]] + EntryValues(blocks[1..], decompile)
  {
    PairsOnlyTail(blocks, decompile);
  }

  /**
   * Reading back entries laid out as a compiler does gives, in order, the
   * value and key each entry's block decompiles to, and stops exactly where
   * the layout ends, leaving the instructions that follow it.
   */
  lemma MapEntriesOfLayout<T>(blocks: seq<seq<Instr>>, storeMaps: seq<Instr>, tail: seq<Instr>, decompile: seq<Instr> -> seq<T>)
    requires |storeMaps| == |blocks| && AllStoreMaps(storeMaps) && EntryBlocks(blocks, decompile)
    ensures MapEntries(MapLayout(blocks, storeMaps) + tail, 0, |blocks|, decompile).Ok?
      && MapEntries(MapLayout(blocks, storeMaps) + tail, 0, |blocks|, decompile).value == Entries(EntryKeys(blocks, decompile), EntryValues(blocks, decompile), |MapLayout(blocks, storeMaps)|)
  {
    var layout := MapLayout(blocks, storeMaps);
    var feed := layout + tail;
    LayoutLaidOut([], blocks, storeMaps, tail);
    assert [] + layout + tail == feed;
    assert LaidOutAt(feed, 0, blocks);
    MapEntriesOfLayoutAt(feed, 0, blocks, decompile);
  }

  /**
   * The entry blocks a successful read of n entries went through: for each
   * entry, the instructions before its STORE_MAP.
   */
  ghost function BlocksRead<T>(feed: seq<Instr>, at: nat, n: nat, decompile: seq<Instr> -> seq<T>): (blocks: seq<seq<Instr>>)
    requires at <= |feed| && MapEntries(feed, at, n, decompile).Ok?
    ensures |blocks| == n
    decreases n
  {
    if n == 0 then []
    else
      MapEntriesFirst(feed, at, n, decompile);
      var entry := MapEntry(feed, at, decompile).value;
      [feed[at..entry.next - 1]] + BlocksRead(feed, entry.next, n - 1, decompile)
  }

  /**
   * The converse of MapEntriesOfLayoutAt: every successful read of n entries
   * is a read of n well-formed entry blocks laid out one after the other,
   * each followed by a STORE_MAP; the keys and values read are those the
   * blocks decompile to, and the read stops just after the last STORE_MAP.
   */
  lemma {:induction false} MapEntriesLaidOut<T>(feed: seq<Instr>, at: nat, n: nat, decompile: seq<Instr> -> seq<T>)
    requires at <= |feed| && MapEntries(feed, at, n, decompile).Ok?
    ensures var blocks := BlocksRead(feed, at, n, decompile);
      && EntryBlocks(blocks, decompile) && LaidOutAt(feed, at, blocks)
      && at + LayoutSize(blocks) <= |feed|
      && MapEntries(feed, at, n, decompile).value
         == Entries(EntryKeys(blocks, decompile), EntryValues(blocks, decompile), at + LayoutSize(blocks))
    decreases n
  {
    if n == 0 {
      MapEntriesNone(feed, at, decompile);
    } else {
      MapEntriesFirst(feed, at, n, decompile);
      var entry := MapEntry(feed, at, decompile).value;
      MapEntriesLaidOut(feed, entry.next, n - 1, decompile);
      BlockReadStep(feed, at, n, decompile);
    }
  }

  /** The step of MapEntriesLaidOut: the first entry's block in front of the blocks of the others. */
  lemma BlockReadStep<T>(feed: seq<Instr>, at: nat, n: nat, decompile: seq<Instr> -> seq<T>)
    requires at <= |feed| && n > 0 && MapEntries(feed, at, n, decompile).Ok?
    requires MapEntry(feed, at, decompile).Ok?
    requires var next := MapEntry(feed, at, decompile).value.next;
      && MapEntries(feed, next, n - 1, decompile).Ok?
      && var others := BlocksRead(feed, next, n - 1, decompile);
      && EntryBlocks(others, decompile) && LaidOutAt(feed, next, others)
      && next + LayoutSize(others) <= |feed|
      && MapEntries(feed, next, n - 1, decompile).value
         == Entries(EntryKeys(others, decompile), EntryValues(others, decompile), next + LayoutSize(others))
    ensures var blocks := BlocksRead(feed, at, n, decompile);
      && EntryBlocks(blocks, decompile) && LaidOutAt(feed, at, blocks)
      && at + LayoutSize(blocks) <= |feed|
      && MapEntries(feed, at, n, decompile).value
         == Entries(EntryKeys(blocks, decompile), EntryValues(blocks, decompile), at + LayoutSize(blocks))
  {
    var entry := MapEntry(feed, at, decompile).value;
    var others := BlocksRead(feed, entry.next, n - 1, decompile);
    var blocks := BlocksRead(feed, at, n, decompile);
    BlockReadShape(feed, at, n, decompile);
    EntriesOfBlocksStep(blocks, decompile);
    MapEntriesStep(feed, at, n, decompile);
  }

  /** The shape half of BlockReadStep: the blocks read are well formed and laid out where they were read. */
  lemma BlockReadShape<T>(feed: seq<Instr>, at: nat, n: nat, decompile: seq<Instr> -> seq<T>)
    requires at <= |feed| && n > 0 && MapEntries(feed, at, n, decompile).Ok?
    requires MapEntry(feed, at, decompile).Ok?
    requires var next := MapEntry(feed, at, decompile).value.next;
      && MapEntries(feed, next, n - 1, decompile).Ok?
      && var others := BlocksRead(feed, next, n - 1, decompile);
      && EntryBlocks(others, decompile) && LaidOutAt(feed, next, others)
    ensures var entry := MapEntry(feed, at, decompile).value;
      var blocks := BlocksRead(feed, at, n, decompile);
      && blocks == [feed[at..entry.next - 1]] + BlocksRead(feed, entry.next, n - 1, decompile)
      && EntryBlocks(blocks, decompile) && LaidOutAt(feed, at, blocks)
  {
    var entry := MapEntry(feed, at, decompile).value;
    var block := feed[at..entry.next - 1];
    FreeBeforeStoreMap(feed, at, entry.next - 1);
    BlockInFront(feed, at, block, BlocksRead(feed, entry.next, n - 1, decompile), decompile);
  }

  /** The instructions before the first STORE_MAP at or after `at` hold no STORE_MAP. */
  lemma FreeBeforeStoreMap(feed: seq<Instr>, at: nat, k: nat)
    requires at <= k <= |feed| && forall j | at <= j < k :: !IsStoreMap(feed[j])
    ensures FreeOfStoreMap(feed[at..k])
  {
    assert forall j | 0 <= j < k - at :: feed[at..k][j] == feed[at + j];
  }

  /** A well-formed block followed by a STORE_MAP, in front of laid-out blocks, is laid out with them. */
  lemma BlockInFront<T>(feed: seq<Instr>, at: nat, block: seq<Instr>, others: seq<seq<Instr>>, decompile: seq<Instr> -> seq<T>)
    requires at + |block| < |feed| && feed[at..at + |block|] == block && IsStoreMap(feed[at + |block|])
    requires FreeOfStoreMap(block) && |decompile(block)| == 2
    requires EntryBlocks(others, decompile) && LaidOutAt(feed, at + |block| + 1, others)
    ensures EntryBlocks([block] + others, decompile) && LaidOutAt(feed, at, [block] + others)
  {
    var blocks := [block] + others;
    assert blocks[0] == block && blocks[1..] == others;
    assert forall i | 1 <= i < |blocks| :: blocks[i] == others[i - 1];
  }

  /** Every node the block decompiler produces satisfies p. */
  ghost predicate DecompilesOnly<T>(decompile: seq<Instr> -> seq<T>, p: T -> bool) {
    forall block: seq<Instr>, i | 0 <= i < |decompile(block)| :: p(decompile(block)[i])
  }

  /** Every element of s satisfies p. */
  ghost predicate AllAre<T>(s: seq<T>, p: T -> bool) {
    forall i | 0 <= i < |s| :: p(s[i])
  }

  /** An element satisfying p in front of elements satisfying p. */
  lemma AllAreCons<T>(x: T, s: seq<T>, p: T -> bool)
    requires p(x) && AllAre(s, p)
    ensures AllAre([x] + s, p)
  {
    assert forall i | 1 <= i <= |s| :: ([x] + s)[i] == s[i - 1];
  }

  /**
   * Every key and value BUILD_MAP reads is a node the block decompiler
   * produced, so it has any property p all such nodes have.
   */
  lemma {:induction false} MapEntriesOnly<T>(feed: seq<Instr>, at: nat, n: nat, decompile: seq<Instr> -> seq<T>, p: T -> bool)
    requires at <= |feed| && DecompilesOnly(decompile, p) && MapEntries(feed, at, n, decompile).Ok?
    ensures AllAre(MapEntries(feed, at, n, decompile).value.keys, p)
    ensures AllAre(MapEntries(feed, at, n, decompile).value.values, p)
    decreases n
  {
    if n > 0 {
      MapEntriesFirst(feed, at, n, decompile);
      var entry := MapEntry(feed, at, decompile).value;
      MapEntriesOnly(feed, entry.next, n - 1, decompile, p);
      var more := MapEntries(feed, entry.next, n - 1, decompile).value;
      AllAreCons(entry.key, more.keys, p);
      AllAreCons(entry.value, more.values, p);
    } else {
      MapEntriesNone(feed, at, decompile);
    }
  }
}
