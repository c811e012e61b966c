/** The eth transaction indexer of indexer/kv_indexer.go over a sorted key-value store. */
module KVIndexer {
  import opened Common
  import opened Lexicographic
  import BE = BigEndian

  const TWO64: nat := 0x1_0000_0000_0000_0000
  const MAX_INT64: nat := 0x7FFF_FFFF_FFFF_FFFF
  const MAX_INT32: nat := 0x7FFF_FFFF

  type int64 = x: int | -0x8000_0000_0000_0000 <= x <= 0x7FFF_FFFF_FFFF_FFFF
  type int32 = x: int | -0x8000_0000 <= x <= 0x7FFF_FFFF

  const PREFIX_TX_HASH: byte := 1
  const PREFIX_TX_INDEX: byte := 2

  type Key = seq<byte>
  type Hash = h: seq<byte> | |h| == 32 witness BE.Encode(0, 32)

  datatype TxResult = TxResult(height: nat, txIndex: nat, msgIndex: nat, ethTxIndex: nat,
                               gasUsed: nat, cumulativeGasUsed: nat, failed: bool)

  // A stored value. The codec between records and bytes is not modelled.
  datatype Value = Record(result: TxResult) | HashRef(hash: Hash)

  type Db = map<Key, Value>

  // ---------- Blocks ----------

  datatype Message = Message(hash: Hash, gas: nat)

  datatype Parsed = Parsed(gasUsed: nat, failed: bool)

  // A transaction of a block and what its execution result and decoder say of it.
  datatype Tx = Tx(codeOk: bool, expectedFailure: bool, decodes: bool, isEth: bool, eventsParse: bool,
                   messages: seq<Message>, parsed: map<nat, Parsed>)

  datatype Block = Block(height: nat, txs: seq<Tx>)

  datatype Entry = Entry(hash: Hash, result: TxResult)

  predicate Indexable(tx: Tx) {
    (tx.codeOk || tx.expectedFailure) && tx.decodes && tx.isEth && tx.eventsParse
  }

  // A message of a successful transaction is left out when its events do not mention it.
  predicate Kept(tx: Tx, i: nat) {
    !tx.codeOk || i in tx.parsed
  }

  function GasUsed(tx: Tx, i: nat): nat
    requires i < |tx.messages| && Kept(tx, i)
  {
    if tx.codeOk then tx.parsed[i].gasUsed else tx.messages[i].gas
  }

  function CumulativeGas(entries: seq<Entry>): nat {
    if entries == [] then 0 else entries[|entries|-1].result.cumulativeGasUsed
  }

  // The record of message i, given its number in the block and the gas of the messages before it.
  function NewEntry(height: nat, txIndex: nat, tx: Tx, i: nat, ethTxIndex: nat, gasBefore: nat): Entry
    requires i < |tx.messages| && Kept(tx, i)
  {
    var gas := GasUsed(tx, i);
    Entry(tx.messages[i].hash,
          TxResult(height, txIndex, i, ethTxIndex, gas, (gasBefore + gas) % TWO64, !tx.codeOk || tx.parsed[i].failed))
  }

  // The entries of the first n messages of a transaction, numbered from next.
  function MessageEntries(height: nat, txIndex: nat, tx: Tx, n: nat, next: nat): seq<Entry>
    requires n <= |tx.messages|
  {
    if n == 0 then []
    else
      var init, i := MessageEntries(height, txIndex, tx, n - 1, next), n - 1;
      if Kept(tx, i) then init + [NewEntry(height, txIndex, tx, i, next + |init|, CumulativeGas(init))] else init
  }

  // The entries of the first n transactions of a block.
  function TxEntries(block: Block, n: nat): seq<Entry>
    requires n <= |block.txs|
  {
    if n == 0 then []
    else
      var init, tx := TxEntries(block, n - 1), block.txs[n - 1];
      if Indexable(tx) then init + MessageEntries(block.height, n - 1, tx, |tx.messages|, |init|) else init
  }

  function Entries(block: Block): seq<Entry> {
    TxEntries(block, |block.txs|)
  }

  lemma {:induction false} MessageEntriesAreNumbered(height: nat, txIndex: nat, tx: Tx, n: nat, next: nat)
    requires n <= |tx.messages|
    ensures forall i :: 0 <= i < |MessageEntries(height, txIndex, tx, n, next)| ==>
              var r := MessageEntries(height, txIndex, tx, n, next)[i].result;
              r.height == height && r.ethTxIndex == next + i
  {
    if n > 0 {
      MessageEntriesAreNumbered(height, txIndex, tx, n - 1, next);
    }
  }

  // The i-th entry of a block carries the block's height and the index i.
  lemma {:induction false} EntriesAreNumbered(block: Block, n: nat)
    requires n <= |block.txs|
    ensures forall i :: 0 <= i < |TxEntries(block, n)| ==>
              TxEntries(block, n)[i].result.height == block.height && TxEntries(block, n)[i].result.ethTxIndex == i
  {
    if n > 0 {
      EntriesAreNumbered(block, n - 1);
      var tx := block.txs[n - 1];
      MessageEntriesAreNumbered(block.height, n - 1, tx, |tx.messages|, |TxEntries(block, n - 1)|);
    }
  }

  // ---------- What a record says ----------

  // e is the record of one message of transaction number txIndex: gas and failure are those its events report
  // or, when the transaction's code is not ok, the gas limit and a failure.
  ghost predicate IsRecordOf(e: Entry, height: nat, txIndex: nat, tx: Tx) {
    var r := e.result;
    && r.height == height && r.txIndex == txIndex && r.msgIndex < |tx.messages|
    && e.hash == tx.messages[r.msgIndex].hash
    && if tx.codeOk
       then r.msgIndex in tx.parsed && Parsed(r.gasUsed, r.failed) == tx.parsed[r.msgIndex]
       else r.gasUsed == tx.messages[r.msgIndex].gas && r.failed
  }

  // The gas of the entries of transaction t up to its message i.
  function GasUpTo(entries: seq<Entry>, t: nat, i: nat): nat {
    if entries == [] then 0
    else
      var r := entries[|entries|-1].result;
      GasUpTo(entries[..|entries|-1], t, i) + if r.txIndex == t && r.msgIndex <= i then r.gasUsed else 0
  }

  lemma {:induction false} GasOfParts(a: seq<Entry>, b: seq<Entry>, t: nat, i: nat)
    ensures GasUpTo(a + b, t, i) == GasUpTo(a, t, i) + GasUpTo(b, t, i)
  {
    if b == [] {
      assert a + b == a;
    } else {
      assert (a + b)[..|a + b|-1] == a + b[..|b|-1];
      GasOfParts(a, b[..|b|-1], t, i);
    }
  }

  // Only messages up to i count, so any bound above them all gives the same gas.
  lemma {:induction false} GasAboveAll(entries: seq<Entry>, t: nat, i: nat, i': nat)
    requires forall k :: 0 <= k < |entries| ==> entries[k].result.msgIndex <= i && entries[k].result.msgIndex <= i'
    ensures GasUpTo(entries, t, i) == GasUpTo(entries, t, i')
  {
    if entries != [] {
      GasAboveAll(entries[..|entries|-1], t, i, i');
    }
  }

  lemma {:induction false} NoGasElsewhere(entries: seq<Entry>, t: nat, i: nat)
    requires forall k :: 0 <= k < |entries| ==> entries[k].result.txIndex != t
    ensures GasUpTo(entries, t, i) == 0
  {
    if entries != [] {
      NoGasElsewhere(entries[..|entries|-1], t, i);
    }
  }

  // es are records of messages below n of one transaction, in order.
  ghost predicate AreRecordsOf(es: seq<Entry>, height: nat, txIndex: nat, tx: Tx, n: nat) {
    && (forall k :: 0 <= k < |es| ==> IsRecordOf(es[k], height, txIndex, tx) && es[k].result.msgIndex < n)
    && (forall j, k :: 0 <= j < k < |es| ==> es[j].result.msgIndex < es[k].result.msgIndex)
  }

  lemma {:induction false} MessageRecords(height: nat, txIndex: nat, tx: Tx, n: nat, next: nat)
    requires n <= |tx.messages|
    ensures AreRecordsOf(MessageEntries(height, txIndex, tx, n, next), height, txIndex, tx, n)
  {
    if n > 0 {
      var i := n - 1;
      MessageRecords(height, txIndex, tx, i, next);
      if Kept(tx, i) {
        var init := MessageEntries(height, txIndex, tx, i, next);
        NewRecordAppended(init, height, txIndex, tx, i, next + |init|);
      }
    }
  }

  lemma NewRecordAppended(init: seq<Entry>, height: nat, txIndex: nat, tx: Tx, i: nat, ethTxIndex: nat)
    requires AreRecordsOf(init, height, txIndex, tx, i) && i < |tx.messages| && Kept(tx, i)
    ensures AreRecordsOf(init + [NewEntry(height, txIndex, tx, i, ethTxIndex, CumulativeGas(init))],
                         height, txIndex, tx, i + 1)
  {
  }

  // Of the messages below n, those have a record that the events mention or whose transaction's code is not ok.
  lemma {:induction false} MessageRecorded(height: nat, txIndex: nat, tx: Tx, n: nat, next: nat, i: nat)
    requires n <= |tx.messages|
    ensures Recorded(MessageEntries(height, txIndex, tx, n, next), txIndex, i) <==>
            i < n && (!tx.codeOk || i in tx.parsed)
  {
    if n > 0 {
      MessageRecorded(height, txIndex, tx, n - 1, next, i);
      if Kept(tx, n - 1) {
        var init := MessageEntries(height, txIndex, tx, n - 1, next);
        var x := NewEntry(height, txIndex, tx, n - 1, next + |init|, CumulativeGas(init));
        RecordedInParts(init, [x], txIndex, i);
        OnlyRecord(x, txIndex, i);
      }
    }
  }

  lemma OnlyRecord(x: Entry, txIndex: nat, i: nat)
    ensures Recorded([x], txIndex, i) <==> IsAt(x, txIndex, i)
  {
    assert [x][0] == x;
  }

  ghost predicate IsAt(e: Entry, txIndex: nat, msgIndex: nat) {
    e.result.txIndex == txIndex && e.result.msgIndex == msgIndex
  }

  ghost predicate Recorded(entries: seq<Entry>, txIndex: nat, msgIndex: nat) {
    exists k :: 0 <= k < |entries| && IsAt(entries[k], txIndex, msgIndex)
  }

  ghost predicate HasCumulativeGas(e: Entry, entries: seq<Entry>) {
    e.result.cumulativeGasUsed == GasUpTo(entries, e.result.txIndex, e.result.msgIndex) % TWO64
  }

  ghost predicate GasAddsUp(entries: seq<Entry>) {
    forall k :: 0 <= k < |entries| ==> HasCumulativeGas(entries[k], entries)
  }

  lemma AddModulo(x: nat, y: nat)
    ensures (x % TWO64 + y) % TWO64 == (x + y) % TWO64
  {
    assert x == TWO64 * (x / TWO64) + x % TWO64;
    assert (x % TWO64 + y + TWO64 * (x / TWO64)) % TWO64 == (x % TWO64 + y) % TWO64;
  }

  // The cumulative gas of a record is that of its transaction's messages so far, in 64 bits.
  lemma {:induction false} MessageGasAddsUp(height: nat, txIndex: nat, tx: Tx, n: nat, next: nat)
    requires n <= |tx.messages|
    ensures GasAddsUp(MessageEntries(height, txIndex, tx, n, next))
  {
    if n > 0 {
      MessageGasAddsUp(height, txIndex, tx, n - 1, next);
      if Kept(tx, n - 1) {
        MessageGasStep(height, txIndex, tx, n - 1, next);
      }
    }
  }

  lemma MessageGasStep(height: nat, txIndex: nat, tx: Tx, i: nat, next: nat)
    requires i < |tx.messages| && Kept(tx, i) && GasAddsUp(MessageEntries(height, txIndex, tx, i, next))
    ensures GasAddsUp(MessageEntries(height, txIndex, tx, i + 1, next))
  {
    var init := MessageEntries(height, txIndex, tx, i, next);
    MessageRecords(height, txIndex, tx, i, next);
    NewEntryAppended(init, height, txIndex, tx, i, next + |init|);
  }

  lemma NewEntryAppended(init: seq<Entry>, height: nat, txIndex: nat, tx: Tx, i: nat, ethTxIndex: nat)
    requires GasAddsUp(init) && AreRecordsOf(init, height, txIndex, tx, i) && i < |tx.messages| && Kept(tx, i)
    ensures GasAddsUp(init + [NewEntry(height, txIndex, tx, i, ethTxIndex, CumulativeGas(init))])
  {
    GasAppended(init, NewEntry(height, txIndex, tx, i, ethTxIndex, CumulativeGas(init)), height, txIndex, tx);
  }

  lemma GasAppended(init: seq<Entry>, x: Entry, height: nat, txIndex: nat, tx: Tx)
    requires GasAddsUp(init) && AreRecordsOf(init, height, txIndex, tx, x.result.msgIndex)
    requires x.result.txIndex == txIndex
    requires x.result.cumulativeGasUsed == (CumulativeGas(init) + x.result.gasUsed) % TWO64
    ensures GasAddsUp(init + [x])
  {
    assert forall k :: 0 <= k < |init| ==> IsRecordOf(init[k], height, txIndex, tx);
    GasOfLastMessage(init, x, txIndex);
    EarlierGasStays(init, x);
  }

  lemma GasOfLastMessage(init: seq<Entry>, x: Entry, t: nat)
    requires GasAddsUp(init) && x.result.txIndex == t
    requires forall k :: 0 <= k < |init| ==> init[k].result.txIndex == t && init[k].result.msgIndex < x.result.msgIndex
    requires forall j, k :: 0 <= j < k < |init| ==> init[j].result.msgIndex < init[k].result.msgIndex
    requires x.result.cumulativeGasUsed == (CumulativeGas(init) + x.result.gasUsed) % TWO64
    ensures HasCumulativeGas(x, init + [x])
  {
    var i := x.result.msgIndex;
    assert (init + [x])[..|init|] == init;
    if init != [] {
      var last := init[|init|-1].result;
      assert HasCumulativeGas(init[|init|-1], init);
      GasAboveAll(init, t, last.msgIndex, i);
      AddModulo(GasUpTo(init, t, i), x.result.gasUsed);
    }
  }

  // An entry for a later message does not change the sums of the earlier ones.
  lemma EarlierGasStays(init: seq<Entry>, x: Entry)
    requires GasAddsUp(init)
    requires HasCumulativeGas(x, init + [x])
    requires forall k :: 0 <= k < |init| ==>
               init[k].result.txIndex == x.result.txIndex && init[k].result.msgIndex < x.result.msgIndex
    ensures GasAddsUp(init + [x])
  {
    assert (init + [x])[..|init|] == init;
    forall k | 0 <= k < |init| ensures HasCumulativeGas(init[k], init + [x]) {
      assert HasCumulativeGas(init[k], init);
    }
  }

  lemma GasOfBlocksParts(a: seq<Entry>, b: seq<Entry>)
    requires GasAddsUp(a) && GasAddsUp(b)
    requires forall j, k :: 0 <= j < |a| && 0 <= k < |b| ==> a[j].result.txIndex != b[k].result.txIndex
    ensures GasAddsUp(a + b)
  {
    forall k | 0 <= k < |a + b|
      ensures HasCumulativeGas((a + b)[k], a + b)
    {
      var r := (a + b)[k].result;
      GasOfParts(a, b, r.txIndex, r.msgIndex);
      if k < |a| {
        assert HasCumulativeGas(a[k], a);
        NoGasElsewhere(b, r.txIndex, r.msgIndex);
      } else {
        assert HasCumulativeGas(b[k - |a|], b);
        NoGasElsewhere(a, r.txIndex, r.msgIndex);
      }
    }
  }

  // An entry of the block's first n transactions is the record of a message of an indexable one.
  ghost predicate IsRecordIn(e: Entry, block: Block, n: nat)
    requires n <= |block.txs|
  {
    var t := e.result.txIndex;
    && t < n && IsRecordOf(e, block.height, t, block.txs[t])
    && (block.txs[t].codeOk || block.txs[t].expectedFailure)
    && block.txs[t].decodes && block.txs[t].isEth && block.txs[t].eventsParse
  }

  ghost predicate Precedes(e: Entry, e': Entry) {
    e.result.txIndex < e'.result.txIndex ||
    (e.result.txIndex == e'.result.txIndex && e.result.msgIndex < e'.result.msgIndex)
  }

  // es are records of messages of the block's first n transactions, in the order of transactions and messages.
  ghost predicate AreRecordsIn(es: seq<Entry>, block: Block, n: nat)
    requires n <= |block.txs|
  {
    && (forall k :: 0 <= k < |es| ==> IsRecordIn(es[k], block, n))
    && (forall j, k :: 0 <= j < k < |es| ==> Precedes(es[j], es[k]))
  }

  // The entries of the n-th transaction.
  function EntriesOfTx(block: Block, n: nat): seq<Entry>
    requires n < |block.txs|
  {
    var tx := block.txs[n];
    if Indexable(tx) then MessageEntries(block.height, n, tx, |tx.messages|, |TxEntries(block, n)|) else []
  }

  lemma {:induction false} BlockRecords(block: Block, n: nat)
    requires n <= |block.txs|
    ensures AreRecordsIn(TxEntries(block, n), block, n)
  {
    if n > 0 {
      var tx, init := block.txs[n-1], TxEntries(block, n - 1);
      BlockRecords(block, n - 1);
      MessageRecords(block.height, n - 1, tx, |tx.messages|, |init|);
      RecordsJoined(block, n, init, EntriesOfTx(block, n - 1));
      assert TxEntries(block, n) == init + EntriesOfTx(block, n - 1);
    }
  }

  lemma RecordsJoined(block: Block, n: nat, init: seq<Entry>, mine: seq<Entry>)
    requires 0 < n <= |block.txs| && AreRecordsIn(init, block, n - 1)
    requires if Indexable(block.txs[n-1])
             then AreRecordsOf(mine, block.height, n - 1, block.txs[n-1], |block.txs[n-1].messages|)
             else mine == []
    ensures AreRecordsIn(init + mine, block, n)
    ensures forall j, k :: 0 <= j < |init| && 0 <= k < |mine| ==> init[j].result.txIndex != mine[k].result.txIndex
  {
    assert forall k :: 0 <= k < |init| ==> IsRecordIn(init[k], block, n - 1);
    assert forall k :: 0 <= k < |mine| ==> IsRecordOf(mine[k], block.height, n - 1, block.txs[n-1]);
  }

  // The cumulative gas of every record is that of its transaction's messages so far.
  lemma {:induction false} BlockGasAddsUp(block: Block, n: nat)
    requires n <= |block.txs|
    ensures GasAddsUp(TxEntries(block, n))
  {
    if n > 0 {
      var tx, init := block.txs[n-1], TxEntries(block, n - 1);
      BlockGasAddsUp(block, n - 1);
      BlockRecords(block, n - 1);
      MessageRecords(block.height, n - 1, tx, |tx.messages|, |init|);
      MessageGasAddsUp(block.height, n - 1, tx, |tx.messages|, |init|);
      RecordsJoined(block, n, init, EntriesOfTx(block, n - 1));
      GasOfBlocksParts(init, EntriesOfTx(block, n - 1));
      assert TxEntries(block, n) == init + EntriesOfTx(block, n - 1);
    }
  }

  // A message has a record exactly when its transaction succeeded or failed as expected, decodes, is an eth
  // transaction and its events parse, and the events mention the message or the code is not ok.
  lemma {:induction false} RecordedExactlyWhen(block: Block, n: nat, t: nat, i: nat)
    requires t < n <= |block.txs| && i < |block.txs[t].messages|
    ensures var tx := block.txs[t];
            Recorded(TxEntries(block, n), t, i) <==>
            && (tx.codeOk || tx.expectedFailure) && tx.decodes && tx.isEth && tx.eventsParse
            && (!tx.codeOk || i in tx.parsed)
  {
    var tx, init, mine := block.txs[n-1], TxEntries(block, n - 1), EntriesOfTx(block, n - 1);
    assert TxEntries(block, n) == init + mine;
    RecordedInParts(init, mine, t, i);
    if t < n - 1 {
      RecordedExactlyWhen(block, n - 1, t, i);
      MessageRecords(block.height, n - 1, tx, |tx.messages|, |init|);
      NotRecordedElsewhere(mine, block, n - 1, t, i);
    } else {
      MessageRecorded(block.height, t, tx, |tx.messages|, |init|, i);
      BlockRecords(block, n - 1);
      NotRecordedBefore(init, block, n - 1, i);
    }
  }

  lemma NotRecordedElsewhere(mine: seq<Entry>, block: Block, n: nat, t: nat, i: nat)
    requires n < |block.txs| && t != n
    requires Indexable(block.txs[n]) ==> AreRecordsOf(mine, block.height, n, block.txs[n], |block.txs[n].messages|)
    requires !Indexable(block.txs[n]) ==> mine == []
    ensures !Recorded(mine, t, i)
  {
  }

  lemma NotRecordedBefore(es: seq<Entry>, block: Block, n: nat, i: nat)
    requires n <= |block.txs| && AreRecordsIn(es, block, n)
    ensures !Recorded(es, n, i)
  {
  }

  lemma RecordedInParts(a: seq<Entry>, b: seq<Entry>, t: nat, i: nat)
    ensures Recorded(a + b, t, i) <==> Recorded(a, t, i) || Recorded(b, t, i)
  {
    if k :| 0 <= k < |a| && IsAt(a[k], t, i) {
      assert IsAt((a + b)[k], t, i);
    }
    if k :| 0 <= k < |b| && IsAt(b[k], t, i) {
      assert IsAt((a + b)[|a| + k], t, i);
    }
    if k :| 0 <= k < |a + b| && IsAt((a + b)[k], t, i) {
      assert if k < |a| then IsAt(a[k], t, i) else IsAt(b[k - |a|], t, i);
    }
  }

  // ---------- Keys ----------

  // uint64(x) of a signed integer.
  function ToUint64(x: int64): (u: nat)
    ensures u < TWO64
  {
    if x < 0 then x + TWO64 else x
  }

  function TxHashKey(hash: Hash): Key {
    [PREFIX_TX_HASH] + hash
  }

  function TxIndexKey(height: int64, index: int32): Key {
    [PREFIX_TX_INDEX] + BE.Encode(ToUint64(height), 8) + BE.Encode(ToUint64(index), 8)
  }

  function ParseBlockNumber(key: Key): Result<int, nat> {
    if |key| != 17 then Err(|key|)
    else
      var u := BE.Decode(key[1..9]);
      Ok(if u <= MAX_INT64 then u else u - TWO64)
  }

  lemma Power256Is64Bits()
    ensures BE.Power256(8) == TWO64
  {
    assert BE.Power256(4) == 0x1_0000_0000;
    assert BE.Power256(8) == 0x1_0000_0000 * BE.Power256(4);
  }

  lemma IndexKeyParts(height: int64, index: int32)
    ensures var k := TxIndexKey(height, index);
            |k| == 17 && k[0] == PREFIX_TX_INDEX && k[1..9] == BE.Encode(ToUint64(height), 8)
            && k[9..] == BE.Encode(ToUint64(index), 8)
  {
  }

  // The layout of the keys: a prefix byte, then height and index in eight bytes each, or the hash.
  lemma KeyLayout(height: nat, index: nat, hash: Hash)
    requires height <= MAX_INT64 && index <= MAX_INT32
    ensures var k := TxIndexKey(height, index);
            |k| == 17 && k[0] == 2 && BE.Decode(k[1..9]) == height && BE.Decode(k[9..]) == index
    ensures |TxHashKey(hash)| == 33 && TxHashKey(hash)[0] == 1 && TxHashKey(hash)[1..] == hash
  {
    Power256Is64Bits();
    IndexKeyParts(height, index);
    BE.DecodeEncode(height, 8);
    BE.DecodeEncode(index, 8);
  }

  // Keys of block positions sort by height first.
  lemma IndexKeysSortByHeight(h: nat, i: nat, h': nat, i': nat)
    requires h <= MAX_INT64 && h' <= MAX_INT64 && i <= MAX_INT32 && i' <= MAX_INT32
    ensures Before(TxIndexKey(h, i), TxIndexKey(h', i')) <==> h < h' || (h == h' && i < i')
  {
    Power256Is64Bits();
    var a, b, a', b' := BE.Encode(h, 8), BE.Encode(i, 8), BE.Encode(h', 8), BE.Encode(i', 8);
    BE.EncodeKeepsOrder(h, h', 8);
    BE.EncodeKeepsOrder(i, i', 8);
    BeforeExtended(a, a', b, b');
    BeforeExtended([PREFIX_TX_INDEX], [PREFIX_TX_INDEX], a + b, a' + b');
    assert [PREFIX_TX_INDEX] + a + b == [PREFIX_TX_INDEX] + (a + b);
    assert [PREFIX_TX_INDEX] + a' + b' == [PREFIX_TX_INDEX] + (a' + b');
  }

  // Distinct positions, negative ones included, have distinct keys.
  lemma IndexKeysAreDistinct(h: int64, i: int32, h': int64, i': int32)
    ensures TxIndexKey(h, i) == TxIndexKey(h', i') <==> h == h' && i == i'
  {
    Power256Is64Bits();
    IndexKeyParts(h, i);
    IndexKeyParts(h', i');
    BE.EncodeKeepsOrder(ToUint64(h), ToUint64(h'), 8);
    BE.EncodeKeepsOrder(ToUint64(i), ToUint64(i'), 8);
  }

  lemma BlockNumberOfKey(height: int64, index: int32)
    ensures ParseBlockNumber(TxIndexKey(height, index)) == Ok(height)
  {
    Power256Is64Bits();
    IndexKeyParts(height, index);
    BE.DecodeEncode(ToUint64(height), 8);
  }

  // ---------- What a batch holds ----------

  predicate InRange(e: Entry) {
    e.result.height <= MAX_INT64 && e.result.ethTxIndex <= MAX_INT32
  }

  // Both key families of one entry.
  function SaveTxResult(batch: Db, e: Entry): Db
    requires InRange(e)
  {
    batch[TxHashKey(e.hash) := Record(e.result)]
         [TxIndexKey(e.result.height, e.result.ethTxIndex) := HashRef(e.hash)]
  }

  // The batch that saveTxResult builds, entry by entry.
  function Batch(entries: seq<Entry>): Db
    requires Numbered(entries)
  {
    if entries == [] then map[]
    else
      SaveTxResult(Batch(entries[..|entries|-1]), entries[|entries|-1])
  }

  ghost predicate Numbered(entries: seq<Entry>) {
    forall i :: 0 <= i < |entries| ==> InRange(entries[i])
  }

  // Entries of one block at one height, in order.
  ghost predicate OfBlock(entries: seq<Entry>, height: nat) {
    && height <= MAX_INT64 && |entries| <= MAX_INT32
    && forall i :: 0 <= i < |entries| ==> entries[i].result.height == height && entries[i].result.ethTxIndex == i
  }

  lemma {:induction false} BatchIndexKeys(entries: seq<Entry>, height: nat, h: int64, i: int32)
    requires OfBlock(entries, height)
    ensures Numbered(entries)
    ensures TxIndexKey(h, i) in Batch(entries) <==> h == height && 0 <= i < |entries|
    ensures h == height && 0 <= i < |entries| ==> Batch(entries)[TxIndexKey(h, i)] == HashRef(entries[i].hash)
  {
    assert Numbered(entries);
    if entries != [] {
      var init, last := entries[..|entries|-1], |entries| - 1;
      BatchIndexKeys(init, height, h, i);
      IndexKeysAreDistinct(h, i, height, last);
      assert TxIndexKey(h, i)[0] != TxHashKey(entries[last].hash)[0];
    }
  }

  // The last entry with the given hash.
  function LastWith(entries: seq<Entry>, hash: Hash): Option<Entry> {
    if entries == [] then None
    else if entries[|entries|-1].hash == hash then Some(entries[|entries|-1])
    else LastWith(entries[..|entries|-1], hash)
  }

  lemma {:induction false} BatchHashKeys(entries: seq<Entry>, height: nat, hash: Hash)
    requires OfBlock(entries, height)
    ensures Numbered(entries)
    ensures TxHashKey(hash) in Batch(entries) <==> LastWith(entries, hash).Some?
    ensures LastWith(entries, hash).Some? ==>
              Batch(entries)[TxHashKey(hash)] == Record(LastWith(entries, hash).value.result)
  {
    assert Numbered(entries);
    if entries != [] {
      var init, e := entries[..|entries|-1], entries[|entries|-1];
      BatchHashKeys(init, height, hash);
      assert TxIndexKey(e.result.height, e.result.ethTxIndex)[0] != TxHashKey(hash)[0];
      assert TxHashKey(hash)[1..] == hash && TxHashKey(e.hash)[1..] == e.hash;
    }
  }

  lemma {:induction false} BatchHasNoOtherKeys(entries: seq<Entry>, height: nat, key: Key)
    requires OfBlock(entries, height)
    ensures Numbered(entries)
    ensures key in Batch(entries) ==>
              (exists i :: 0 <= i < |entries| && key == TxIndexKey(height, i))
              || (exists e :: e in entries && key == TxHashKey(e.hash))
  {
    assert Numbered(entries);
    if entries != [] {
      var init, last := entries[..|entries|-1], |entries| - 1;
      BatchHasNoOtherKeys(init, height, key);
      assert entries[last] in entries && forall e :: e in init ==> e in entries;
    }
  }

  // ---------- The store after any run of IndexBlock ----------

  // The block of every height.
  type Chain = nat -> Block

  ghost predicate GoodChain(chain: Chain) {
    forall h: nat :: h <= MAX_INT64 ==> chain(h).height == h && |Entries(chain(h))| <= MAX_INT32
  }

  ghost predicate GoodRun(run: seq<nat>) {
    forall k :: 0 <= k < |run| ==> 1 <= run[k] <= MAX_INT64
  }

  lemma BlockIsNumbered(chain: Chain, h: nat)
    requires GoodChain(chain) && h <= MAX_INT64
    ensures OfBlock(Entries(chain(h)), h) && Numbered(Entries(chain(h)))
  {
    EntriesAreNumbered(chain(h), |chain(h).txs|);
  }

  // The store after indexing the blocks at the given heights, in this order.
  ghost function DbAfter(chain: Chain, run: seq<nat>): Db
    requires GoodChain(chain) && GoodRun(run)
  {
    if run == [] then map[]
    else
      var last := run[|run|-1];
      BlockIsNumbered(chain, last);
      DbAfter(chain, run[..|run|-1]) + Batch(Entries(chain(last)))
  }

  lemma DbAfterOneMore(chain: Chain, run: seq<nat>, h: nat)
    requires GoodChain(chain) && GoodRun(run) && 1 <= h <= MAX_INT64
    ensures GoodRun(run + [h]) && Numbered(Entries(chain(h)))
    ensures DbAfter(chain, run + [h]) == DbAfter(chain, run) + Batch(Entries(chain(h)))
  {
    BlockIsNumbered(chain, h);
    assert (run + [h])[..|run|] == run;
  }

  // The entry a hash was last written with.
  ghost function LastWritten(chain: Chain, run: seq<nat>, hash: Hash): Option<Entry> {
    if run == [] then None
    else
      var e := LastWith(Entries(chain(run[|run|-1])), hash);
      if e.Some? then e else LastWritten(chain, run[..|run|-1], hash)
  }

  lemma {:induction false} IndexKeysAfter(chain: Chain, run: seq<nat>, h: int64, i: int32)
    requires GoodChain(chain) && GoodRun(run)
    ensures TxIndexKey(h, i) in DbAfter(chain, run) <==> h >= 0 && h in run && 0 <= i < |Entries(chain(h))|
    ensures h >= 0 && h in run && 0 <= i < |Entries(chain(h))| ==>
              DbAfter(chain, run)[TxIndexKey(h, i)] == HashRef(Entries(chain(h))[i].hash)
  {
    if run != [] {
      var init, last := run[..|run|-1], run[|run|-1];
      IndexKeysAfter(chain, init, h, i);
      BlockIsNumbered(chain, last);
      BatchIndexKeys(Entries(chain(last)), last, h, i);
      assert run == init + [last];
    }
  }

  lemma {:induction false} HashKeysAfter(chain: Chain, run: seq<nat>, hash: Hash)
    requires GoodChain(chain) && GoodRun(run)
    ensures TxHashKey(hash) in DbAfter(chain, run) <==> LastWritten(chain, run, hash).Some?
    ensures LastWritten(chain, run, hash).Some? ==>
              DbAfter(chain, run)[TxHashKey(hash)] == Record(LastWritten(chain, run, hash).value.result)
  {
    if run != [] {
      var init, last := run[..|run|-1], run[|run|-1];
      HashKeysAfter(chain, init, hash);
      BlockIsNumbered(chain, last);
      BatchHashKeys(Entries(chain(last)), last, hash);
    }
  }

  ghost predicate IsIndexKey(chain: Chain, run: seq<nat>, key: Key)
    requires GoodRun(run)
  {
    exists h, i :: h in run && 0 <= i < |Entries(chain(h))| && i <= MAX_INT32 && key == TxIndexKey(h, i)
  }

  lemma {:induction false} NoOtherKeys(chain: Chain, run: seq<nat>, key: Key)
    requires GoodChain(chain) && GoodRun(run) && key in DbAfter(chain, run)
    ensures IsIndexKey(chain, run, key) || exists hash :: key == TxHashKey(hash)
  {
    var init, last := run[..|run|-1], run[|run|-1];
    BlockIsNumbered(chain, last);
    assert last in run && forall h :: h in init ==> h in run;
    if key in Batch(Entries(chain(last))) {
      BatchHasNoOtherKeys(Entries(chain(last)), last, key);
    } else {
      NoOtherKeys(chain, init, key);
    }
  }

  // ---------- Lookups ----------

  // A record whose fields are all zero marshals to no bytes, which reads as not found.
  predicate Blank(r: TxResult) {
    r == TxResult(0, 0, 0, 0, 0, 0, false)
  }

  function GetByTxHash(db: Db, hash: Hash): Option<TxResult> {
    var key := TxHashKey(hash);
    if key in db && db[key].Record? && !Blank(db[key].result) then Some(db[key].result) else None
  }

  function GetByBlockAndIndex(db: Db, height: int64, index: int32): Option<TxResult> {
    var key := TxIndexKey(height, index);
    if key in db && db[key].HashRef? then GetByTxHash(db, db[key].hash) else None
  }

  // No two messages of the chain share a hash.
  ghost predicate DistinctHashes(chain: Chain) {
    forall h: nat, i: nat, h': nat, i': nat ::
      (i < |Entries(chain(h))| && i' < |Entries(chain(h'))| &&
       Entries(chain(h))[i].hash == Entries(chain(h'))[i'].hash) ==> h == h' && i == i'
  }

  lemma {:induction false} LastWithFinds(entries: seq<Entry>, e: Entry)
    requires e in entries
    ensures LastWith(entries, e.hash).Some?
  {
    if entries[|entries|-1] != e {
      assert entries == entries[..|entries|-1] + [entries[|entries|-1]];
      LastWithFinds(entries[..|entries|-1], e);
    }
  }

  // Blocks have positive heights, so that no record is blank.
  lemma WrittenIsNotBlank(chain: Chain, run: seq<nat>, hash: Hash)
    requires GoodChain(chain) && GoodRun(run) && LastWritten(chain, run, hash).Some?
    ensures !Blank(LastWritten(chain, run, hash).value.result)
  {
    WriterIsSomewhere(chain, run, hash);
    var w := LastWritten(chain, run, hash).value;
    var h :| h in run && w in Entries(chain(h));
    BlockIsNumbered(chain, h);
  }

  lemma {:induction false} WriterIsSomewhere(chain: Chain, run: seq<nat>, hash: Hash)
    requires LastWritten(chain, run, hash).Some?
    ensures var w := LastWritten(chain, run, hash).value;
            w.hash == hash && exists h :: h in run && w in Entries(chain(h))
  {
    var init, last := run[..|run|-1], run[|run|-1];
    assert last in run && forall h :: h in init ==> h in run;
    if LastWith(Entries(chain(last)), hash).Some? {
      LastWithMember(Entries(chain(last)), hash);
    } else {
      WriterIsSomewhere(chain, init, hash);
    }
  }

  lemma {:induction false} LastWithMember(entries: seq<Entry>, hash: Hash)
    requires LastWith(entries, hash).Some?
    ensures LastWith(entries, hash).value in entries && LastWith(entries, hash).value.hash == hash
  {
    if entries[|entries|-1].hash != hash {
      LastWithMember(entries[..|entries|-1], hash);
    }
  }

  lemma {:induction false} WrittenIsFound(chain: Chain, run: seq<nat>, h: nat, e: Entry)
    requires h in run && e in Entries(chain(h))
    ensures LastWritten(chain, run, e.hash).Some?
  {
    var init, last := run[..|run|-1], run[|run|-1];
    if h == last {
      LastWithFinds(Entries(chain(last)), e);
    } else {
      assert run == init + [last];
      WrittenIsFound(chain, init, h, e);
    }
  }

  // Lookup by position succeeds exactly inside an indexed block, and shows what its hash was last written with.
  lemma LookupByPosition(chain: Chain, run: seq<nat>, h: int64, i: int32)
    requires GoodChain(chain) && GoodRun(run)
    ensures if h >= 0 && h in run && 0 <= i < |Entries(chain(h))|
            then var w := LastWritten(chain, run, Entries(chain(h))[i].hash);
                 w.Some? && GetByBlockAndIndex(DbAfter(chain, run), h, i) == Some(w.value.result)
            else GetByBlockAndIndex(DbAfter(chain, run), h, i) == None
  {
    IndexKeysAfter(chain, run, h, i);
    if h >= 0 && h in run && 0 <= i < |Entries(chain(h))| {
      var e := Entries(chain(h))[i];
      WrittenIsFound(chain, run, h, e);
      WrittenIsNotBlank(chain, run, e.hash);
      HashKeysAfter(chain, run, e.hash);
    }
  }

  lemma DistinctMeansOwn(chain: Chain, run: seq<nat>, h: nat, i: nat)
    requires DistinctHashes(chain) && h in run && i < |Entries(chain(h))|
    ensures LastWritten(chain, run, Entries(chain(h))[i].hash) == Some(Entries(chain(h))[i])
  {
    var e := Entries(chain(h))[i];
    WrittenIsFound(chain, run, h, e);
    WriterIsSomewhere(chain, run, e.hash);
    var w := LastWritten(chain, run, e.hash).value;
    var h' :| h' in run && w in Entries(chain(h'));
    var i' :| 0 <= i' < |Entries(chain(h'))| && Entries(chain(h'))[i'] == w;
  }

  // With distinct hashes a position's lookup shows its own record, under its own height and index, and
  // the lookup by hash shows the same record.
  lemma LookupIsOwn(chain: Chain, run: seq<nat>, h: nat, i: nat)
    requires GoodChain(chain) && GoodRun(run) && DistinctHashes(chain) && h in run && i < |Entries(chain(h))|
    ensures h <= MAX_INT64 && i <= MAX_INT32
    ensures var e, db := Entries(chain(h))[i], DbAfter(chain, run);
            && GetByBlockAndIndex(db, h, i) == GetByTxHash(db, e.hash) == Some(e.result)
            && e.result.height == h && e.result.ethTxIndex == i
  {
    BlockIsNumbered(chain, h);
    LookupByPosition(chain, run, h, i);
    DistinctMeansOwn(chain, run, h, i);
    HashKeysAfter(chain, run, Entries(chain(h))[i].hash);
  }

  // What an index lookup tells of a message, in the block's own terms: with distinct hashes, every message that
  // is to be recorded is found by its hash, with its place, its gas and its failure.
  lemma MessageIsFound(chain: Chain, run: seq<nat>, h: nat, t: nat, i: nat)
    requires GoodChain(chain) && GoodRun(run) && DistinctHashes(chain) && h in run
    requires t < |chain(h).txs| && i < |chain(h).txs[t].messages|
    requires var tx := chain(h).txs[t];
             && (tx.codeOk || tx.expectedFailure) && tx.decodes && tx.isEth && tx.eventsParse
             && (!tx.codeOk || i in tx.parsed)
    ensures var tx := chain(h).txs[t];
            var found := GetByTxHash(DbAfter(chain, run), tx.messages[i].hash);
            && found.Some? && found.value.height == h && found.value.txIndex == t && found.value.msgIndex == i
            && found.value.gasUsed == (if tx.codeOk then tx.parsed[i].gasUsed else tx.messages[i].gas)
            && found.value.failed == (!tx.codeOk || tx.parsed[i].failed)
            && found.value.cumulativeGasUsed == GasUpTo(Entries(chain(h)), t, i) % TWO64
  {
    var block, n := chain(h), |chain(h).txs|;
    RecordedExactlyWhen(block, n, t, i);
    BlockRecords(block, n);
    BlockGasAddsUp(block, n);
    var k :| 0 <= k < |Entries(block)| && IsAt(Entries(block)[k], t, i);
    assert IsRecordIn(Entries(block)[k], block, n) && HasCumulativeGas(Entries(block)[k], Entries(block));
    LookupIsOwn(chain, run, h, k);
  }

  ghost predicate NoneWith(entries: seq<Entry>, from: int, hash: Hash) {
    forall j :: 0 <= j < |entries| && from <= j ==> entries[j].hash != hash
  }

  // The k-th block of the run is the one at height h, and after its entry i no message with that entry's hash
  // was indexed any more, neither later in the block nor in a later block of the run.
  ghost predicate KeepsItsHash(chain: Chain, run: seq<nat>, h: nat, i: nat, k: nat)
    requires i < |Entries(chain(h))|
  {
    var hash := Entries(chain(h))[i].hash;
    && k < |run| && run[k] == h && NoneWith(Entries(chain(h)), i + 1, hash)
    && forall k' :: k < k' < |run| ==> NoneWith(Entries(chain(run[k'])), 0, hash)
  }

  lemma {:induction false} LastWithNothing(entries: seq<Entry>, hash: Hash)
    ensures LastWith(entries, hash) == None <==> NoneWith(entries, 0, hash)
  {
    if entries != [] {
      LastWithNothing(entries[..|entries|-1], hash);
    }
  }

  lemma {:induction false} LastWithIsLast(entries: seq<Entry>, height: nat, i: nat)
    requires OfBlock(entries, height) && i < |entries|
    ensures LastWith(entries, entries[i].hash) == Some(entries[i]) <==> NoneWith(entries, i + 1, entries[i].hash)
  {
    var n := |entries| - 1;
    if i < n && entries[n].hash != entries[i].hash {
      LastWithIsLast(entries[..n], height, i);
    }
  }

  lemma {:induction false} WrittenLastIffKeepsItsHash(chain: Chain, run: seq<nat>, h: nat, i: nat)
    requires GoodChain(chain) && GoodRun(run) && h <= MAX_INT64 && i < |Entries(chain(h))|
    ensures var e := Entries(chain(h))[i];
            LastWritten(chain, run, e.hash) == Some(e) <==> exists k: nat :: KeepsItsHash(chain, run, h, i, k)
  {
    var e := Entries(chain(h))[i];
    if run != [] {
      var n := |run| - 1;
      var init, block := run[..n], Entries(chain(run[n]));
      WrittenLastIffKeepsItsHash(chain, init, h, i);
      LastWithNothing(block, e.hash);
      if NoneWith(block, 0, e.hash) {
        assert run == init + [run[n]] && LastWritten(chain, run, e.hash) == LastWritten(chain, init, e.hash);
        KeptThroughUnrelatedBlock(chain, init, run[n], h, i);
      } else {
        assert LastWritten(chain, run, e.hash) == LastWith(block, e.hash);
        LastBlockDecides(chain, run, h, i);
      }
    }
  }

  lemma KeptThroughUnrelatedBlock(chain: Chain, init: seq<nat>, last: nat, h: nat, i: nat)
    requires i < |Entries(chain(h))| && NoneWith(Entries(chain(last)), 0, Entries(chain(h))[i].hash)
    ensures (exists k: nat :: KeepsItsHash(chain, init + [last], h, i, k)) <==>
            (exists k: nat :: KeepsItsHash(chain, init, h, i, k))
  {
    var run := init + [last];
    assert forall k' :: 0 <= k' < |init| ==> init[k'] == run[k'];
    if k: nat :| KeepsItsHash(chain, run, h, i, k) {
      assert last != h;
      assert KeepsItsHash(chain, init, h, i, k);
    }
    if k: nat :| KeepsItsHash(chain, init, h, i, k) {
      assert KeepsItsHash(chain, run, h, i, k);
    }
  }

  lemma LastBlockDecides(chain: Chain, run: seq<nat>, h: nat, i: nat)
    requires GoodChain(chain) && GoodRun(run) && h <= MAX_INT64 && i < |Entries(chain(h))| && run != []
    requires !NoneWith(Entries(chain(run[|run|-1])), 0, Entries(chain(h))[i].hash)
    ensures (exists k: nat :: KeepsItsHash(chain, run, h, i, k)) <==>
            LastWith(Entries(chain(run[|run|-1])), Entries(chain(h))[i].hash) == Some(Entries(chain(h))[i])
  {
    var n, e := |run| - 1, Entries(chain(h))[i];
    var block := Entries(chain(run[n]));
    BlockIsNumbered(chain, h);
    BlockIsNumbered(chain, run[n]);
    if k: nat :| KeepsItsHash(chain, run, h, i, k) {
      assert k == n;
      LastWithIsLast(block, h, i);
    }
    if LastWith(block, e.hash) == Some(e) {
      LastWithMember(block, e.hash);
      assert e.result.height == h == run[n];
      LastWithIsLast(block, h, i);
      assert KeepsItsHash(chain, run, h, i, n);
    }
  }

  // Without distinct hashes a lookup shows its own record exactly when the block has been indexed after all
  // other messages of the run that have the same hash.
  lemma LookupIsOwnIffKeepsItsHash(chain: Chain, run: seq<nat>, h: nat, i: nat)
    requires GoodChain(chain) && GoodRun(run) && h in run && i < |Entries(chain(h))|
    ensures h <= MAX_INT64 && i <= MAX_INT32
    ensures GetByBlockAndIndex(DbAfter(chain, run), h, i) == Some(Entries(chain(h))[i].result) <==>
            exists k: nat :: KeepsItsHash(chain, run, h, i, k)
  {
    BlockIsNumbered(chain, h);
    LookupByPosition(chain, run, h, i);
    WriterIsSomewhere(chain, run, Entries(chain(h))[i].hash);
    WrittenLastIffKeepsItsHash(chain, run, h, i);
  }

  // Every block holds one failed message, always with the same hash.
  function SharedHash(hash: Hash): Chain {
    (height: nat) => Block(height, [Tx(false, true, true, true, true, [Message(hash, 0)], map[])])
  }

  lemma OneEntry(hash: Hash, h: nat)
    ensures |Entries(SharedHash(hash)(h))| == 1 && Entries(SharedHash(hash)(h))[0].hash == hash
  {
    var block := SharedHash(hash)(h);
    var tx := block.txs[0];
    assert TxEntries(block, 0) == [] && MessageEntries(h, 0, tx, 0, 0) == [];
    assert MessageEntries(h, 0, tx, 1, 0) == [] + [NewEntry(h, 0, tx, 0, 0, 0)];
    assert TxEntries(block, 1) == [] + MessageEntries(h, 0, tx, 1, 0);
  }

  // Two blocks that share a hash: the first one's position shows the second one's record.
  lemma SharedHashIsTakenOver(hash: Hash)
    ensures var chain := SharedHash(hash);
            && GoodChain(chain) && GoodRun([1, 2])
            && var r := GetByBlockAndIndex(DbAfter(chain, [1, 2]), 1, 0);
               |Entries(chain(1))| == 1 && r.Some? && r.value.height == 2 && r.value != Entries(chain(1))[0].result
  {
    var chain, run: seq<nat> := SharedHash(hash), [1, 2];
    forall h: nat ensures |Entries(chain(h))| == 1 && Entries(chain(h))[0].hash == hash {
      OneEntry(hash, h);
    }
    LookupByPosition(chain, run, 1, 0);
    BlockIsNumbered(chain, 2);
    BlockIsNumbered(chain, 1);
    assert LastWith(Entries(chain(2)), hash) == Some(Entries(chain(2))[0]);
    assert LastWritten(chain, run, hash) == LastWith(Entries(chain(run[1])), hash);
  }

  lemma SameHeightsSameValue(chain: Chain, run: seq<nat>, run': seq<nat>, key: Key)
    requires GoodChain(chain) && GoodRun(run) && GoodRun(run') && DistinctHashes(chain)
    requires forall h :: h in run ==> h in run'
    requires key in DbAfter(chain, run)
    ensures key in DbAfter(chain, run') && DbAfter(chain, run')[key] == DbAfter(chain, run)[key]
  {
    NoOtherKeys(chain, run, key);
    if IsIndexKey(chain, run, key) {
      var h, i :| h in run && 0 <= i < |Entries(chain(h))| && i <= MAX_INT32 && key == TxIndexKey(h, i);
      IndexKeysAfter(chain, run, h, i);
      IndexKeysAfter(chain, run', h, i);
    } else {
      var hash :| key == TxHashKey(hash);
      HashKeysAfter(chain, run, hash);
      HashKeysAfter(chain, run', hash);
      SameHeightsSameWriter(chain, run, run', hash);
    }
  }

  lemma SameHeightsSameWriter(chain: Chain, run: seq<nat>, run': seq<nat>, hash: Hash)
    requires DistinctHashes(chain) && LastWritten(chain, run, hash).Some?
    requires forall h :: h in run ==> h in run'
    ensures LastWritten(chain, run', hash) == LastWritten(chain, run, hash)
  {
    WriterIsSomewhere(chain, run, hash);
    var w := LastWritten(chain, run, hash).value;
    var h :| h in run && w in Entries(chain(h));
    var i :| 0 <= i < |Entries(chain(h))| && Entries(chain(h))[i] == w;
    DistinctMeansOwn(chain, run', h, i);
  }

  // The store depends only on which blocks were indexed: order and repetition do not matter.
  lemma StoreDependsOnHeightsOnly(chain: Chain, run: seq<nat>, run': seq<nat>)
    requires GoodChain(chain) && GoodRun(run) && GoodRun(run') && DistinctHashes(chain)
    requires forall h :: h in run <==> h in run'
    ensures DbAfter(chain, run) == DbAfter(chain, run')
  {
    var db, db' := DbAfter(chain, run), DbAfter(chain, run');
    forall key | key in db ensures key in db' && db'[key] == db[key] {
      SameHeightsSameValue(chain, run, run', key);
    }
    forall key | key in db' ensures key in db {
      SameHeightsSameValue(chain, run', run, key);
    }
  }

  // Indexing a block again changes nothing.
  lemma ReindexingChangesNothing(chain: Chain, run: seq<nat>, h: nat)
    requires GoodChain(chain) && GoodRun(run) && DistinctHashes(chain) && h in run
    ensures GoodRun(run + [h]) && DbAfter(chain, run + [h]) == DbAfter(chain, run)
  {
    StoreDependsOnHeightsOnly(chain, run + [h], run);
  }

  // ---------- The first and the last indexed block ----------

  ghost predicate HasEthTx(chain: Chain, h: nat) {
    Entries(chain(h)) != []
  }

  // h is the last (or first) of the indexed blocks that hold an eth transaction; -1 when there is none.
  ghost predicate IsEnd(chain: Chain, run: seq<nat>, h: int, last: bool) {
    if h == -1 then forall x :: x in run ==> !HasEthTx(chain, x)
    else h >= 0 && h in run && HasEthTx(chain, h) &&
         forall x :: x in run && HasEthTx(chain, x) ==> if last then x <= h else h <= x
  }

  predicate InIndexRange(key: Key) {
    !Before(key, [PREFIX_TX_INDEX]) && Before(key, [PREFIX_TX_INDEX + 1])
  }

  lemma IndexRangeIsPrefix(key: Key)
    ensures InIndexRange(key) <==> key != [] && key[0] == PREFIX_TX_INDEX
  {
    if key != [] && key[0] == PREFIX_TX_INDEX {
      assert Before(key, [PREFIX_TX_INDEX]) == Before(key[1..], [PREFIX_TX_INDEX][1..]);
    } else if key != [] && key[0] == PREFIX_TX_INDEX + 1 {
      assert Before(key, [PREFIX_TX_INDEX + 1]) == Before(key[1..], [PREFIX_TX_INDEX + 1][1..]);
    }
  }

  // What an iterator over the range stands on first: the least key, or the greatest for a reverse one.
  method FirstOfIterator(keys: set<Key>, reverse: bool) returns (key: Key)
    requires keys != {}
    ensures key in keys && forall k :: k in keys && k != key ==> if reverse then Before(k, key) else Before(key, k)
  {
    key :| key in keys;
    var todo := keys - {key};
    while todo != {}
      invariant todo <= keys && key in keys
      invariant forall k :: k in keys && k !in todo && k != key ==> if reverse then Before(k, key) else Before(key, k)
      decreases todo
    {
      var k :| k in todo;
      todo := todo - {k};
      BeforeIsTotal(k, key);
      if (if reverse then Before(key, k) else Before(k, key)) {
        NewExtreme(keys - todo, key, k, reverse);
        key := k;
      }
    }
  }

  lemma NewExtreme(keys: set<Key>, key: Key, k: Key, reverse: bool)
    requires if reverse then Before(key, k) else Before(k, key)
    requires forall x :: x in keys && x != key && x != k ==> if reverse then Before(x, key) else Before(key, x)
    ensures forall x :: x in keys && x != k ==> if reverse then Before(x, k) else Before(k, x)
  {
    forall x | x in keys && x != k ensures if reverse then Before(x, k) else Before(k, x) {
      if x != key {
        if reverse {
          BeforeIsTransitive(x, key, k);
        } else {
          BeforeIsTransitive(k, key, x);
        }
      }
    }
  }

  lemma EndOfIndex(chain: Chain, run: seq<nat>, key: Key, last: bool)
    requires GoodChain(chain) && GoodRun(run) && key in DbAfter(chain, run) && InIndexRange(key)
    requires forall k :: k in DbAfter(chain, run) && InIndexRange(k) && k != key ==>
               if last then Before(k, key) else Before(key, k)
    ensures ParseBlockNumber(key).Ok? && ParseBlockNumber(key).value >= 0
    ensures IsEnd(chain, run, ParseBlockNumber(key).value, last)
  {
    NoOtherKeys(chain, run, key);
    IndexRangeIsPrefix(key);
    var h, i :| h in run && 0 <= i < |Entries(chain(h))| && i <= MAX_INT32 && key == TxIndexKey(h, i);
    BlockNumberOfKey(h, i);
    forall x | x in run && HasEthTx(chain, x) ensures if last then x <= h else h <= x {
      IndexKeysAfter(chain, run, x, 0);
      IndexRangeIsPrefix(TxIndexKey(x, 0));
      IndexKeysSortByHeight(x, 0, h, i);
      IndexKeysSortByHeight(h, i, x, 0);
    }
  }

  lemma EmptyIndex(chain: Chain, run: seq<nat>, last: bool)
    requires GoodChain(chain) && GoodRun(run)
    requires forall k :: k in DbAfter(chain, run) ==> !InIndexRange(k)
    ensures IsEnd(chain, run, -1, last)
  {
    forall x | x in run ensures !HasEthTx(chain, x) {
      IndexKeysAfter(chain, run, x, 0);
      IndexRangeIsPrefix(TxIndexKey(x, 0));
    }
  }

  // LoadLastBlock and LoadFirstBlock.
  method LoadEndBlock(db: Db, last: bool, ghost chain: Chain, ghost run: seq<nat>) returns (h: int)
    requires GoodChain(chain) && GoodRun(run) && db == DbAfter(chain, run)
    ensures h >= -1 && IsEnd(chain, run, h, last)
  {
    var keys := set k | k in db && InIndexRange(k);
    if keys == {} {
      assert forall k :: k in db && InIndexRange(k) ==> k in keys;
      EmptyIndex(chain, run, last);
      return -1;
    }
    var key := FirstOfIterator(keys, last);
    assert forall k :: k in db && InIndexRange(k) ==> k in keys;
    EndOfIndex(chain, run, key, last);
    h := ParseBlockNumber(key).value;
  }

  // ---------- The indexer ----------

  class Indexer {
    var db: Db
    ghost var run: seq<nat>
    ghost const chain: Chain

    ghost predicate Valid()
      reads this
    {
      GoodChain(chain) && GoodRun(run) && db == DbAfter(chain, run)
    }

    constructor (ghost chain: Chain)
      requires GoodChain(chain)
      ensures Valid() && run == [] && this.chain == chain
    {
      db, run, this.chain := map[], [], chain;
    }

    // The batch is written in one piece or, when the store fails, not at all.
    method IndexBlock(block: Block, storeOk: bool) returns (ok: bool)
      requires Valid() && 1 <= block.height <= MAX_INT64 && block == chain(block.height)
      modifies this
      ensures Valid() && ok == storeOk
      ensures run == if ok then old(run) + [block.height] else old(run)
    {
      BlockIsNumbered(chain, block.height);
      var batch := CollectBatch(block);
      if !storeOk {
        return false;
      }
      db := db + batch;
      DbAfterOneMore(chain, run, block.height);
      run := run + [block.height];
      return true;
    }

    method LastIndexedBlock() returns (h: int)
      requires Valid()
      ensures h >= -1 && IsEnd(chain, run, h, true)
    {
      h := LoadEndBlock(db, true, chain, run);
    }

    method FirstIndexedBlock() returns (h: int)
      requires Valid()
      ensures h >= -1 && IsEnd(chain, run, h, false)
    {
      h := LoadEndBlock(db, false, chain, run);
    }
  }

  // The loops of IndexBlock over transactions and messages.
  method CollectBatch(block: Block) returns (batch: Db)
    requires OfBlock(Entries(block), block.height)
    ensures Numbered(Entries(block)) && batch == Batch(Entries(block))
  {
    batch := map[];
    var ethTxIndex := 0;
    var txIndex := 0;
    while txIndex < |block.txs|
      invariant 0 <= txIndex <= |block.txs|
      invariant TxsCollected(block, txIndex, batch, ethTxIndex)
    {
      batch, ethTxIndex := CollectTx(block, txIndex, batch, ethTxIndex);
      txIndex := txIndex + 1;
    }
  }

  // The outer loop's variables after n transactions.
  ghost predicate TxsCollected(block: Block, n: nat, batch: Db, ethTxIndex: nat)
    requires n <= |block.txs|
  {
    var done := TxEntries(block, n);
    Numbered(done) && batch == Batch(done) && ethTxIndex == |done|
  }

  // One round of the outer loop.
  method CollectTx(block: Block, n: nat, before: Db, first: nat) returns (batch: Db, ethTxIndex: nat)
    requires n < |block.txs| && OfBlock(Entries(block), block.height) && TxsCollected(block, n, before, first)
    ensures TxsCollected(block, n + 1, batch, ethTxIndex)
  {
    var tx := block.txs[n];
    if !Indexable(tx) {
      return before, first;
    }
    TxEntriesPrefix(block, n + 1);
    batch, ethTxIndex := CollectMessages(block.height, n, tx, before, first, TxEntries(block, n));
  }

  lemma {:induction false} TxEntriesPrefix(block: Block, n: nat)
    requires n <= |block.txs| && OfBlock(Entries(block), block.height)
    ensures TxEntries(block, n) <= Entries(block) && Numbered(TxEntries(block, n))
    decreases |block.txs| - n
  {
    if n < |block.txs| {
      TxEntriesPrefix(block, n + 1);
    }
  }

  method CollectMessages(height: nat, txIndex: nat, tx: Tx, before: Db, first: nat, ghost done: seq<Entry>)
    returns (batch: Db, ethTxIndex: nat)
    requires Numbered(done) && before == Batch(done) && first == |done|
    requires Numbered(done + MessageEntries(height, txIndex, tx, |tx.messages|, first))
    ensures var all := done + MessageEntries(height, txIndex, tx, |tx.messages|, first);
            batch == Batch(all) && ethTxIndex == |all|
  {
    batch, ethTxIndex := before, first;
    var cumulativeGasUsed := 0;
    assert done + [] == done;
    var msgIndex := 0;
    while msgIndex < |tx.messages|
      invariant 0 <= msgIndex <= |tx.messages|
      invariant Collected(height, txIndex, tx, msgIndex, first, done, batch, ethTxIndex, cumulativeGasUsed)
    {
      batch, ethTxIndex, cumulativeGasUsed :=
        SaveMessage(height, txIndex, tx, msgIndex, batch, ethTxIndex, cumulativeGasUsed, first, done);
      msgIndex := msgIndex + 1;
    }
  }

  // One round of the loop: the message is saved, or left out when the events do not mention it.
  method SaveMessage(height: nat, txIndex: nat, tx: Tx, i: nat, batch: Db, ethTxIndex: nat, gas: nat,
                     ghost first: nat, ghost done: seq<Entry>)
    returns (batch': Db, ethTxIndex': nat, gas': nat)
    requires i < |tx.messages| && first == |done|
    requires Numbered(done + MessageEntries(height, txIndex, tx, |tx.messages|, first))
    requires Collected(height, txIndex, tx, i, first, done, batch, ethTxIndex, gas)
    ensures Collected(height, txIndex, tx, i + 1, first, done, batch', ethTxIndex', gas')
  {
    CollectMessage(height, txIndex, tx, i, first, done, batch, ethTxIndex, gas);
    if !Kept(tx, i) {
      return batch, ethTxIndex, gas;
    }
    var e := NewEntry(height, txIndex, tx, i, ethTxIndex, gas);
    return SaveTxResult(batch, e), ethTxIndex + 1, e.result.cumulativeGasUsed;
  }

  // The loop's variables after n messages.
  ghost predicate Collected(height: nat, txIndex: nat, tx: Tx, n: nat, first: nat, done: seq<Entry>,
                            batch: Db, ethTxIndex: nat, gas: nat)
    requires n <= |tx.messages|
  {
    var mine := MessageEntries(height, txIndex, tx, n, first);
    && Numbered(done + mine) && batch == Batch(done + mine)
    && ethTxIndex == |done + mine| && gas == CumulativeGas(mine)
  }

  lemma CollectMessage(height: nat, txIndex: nat, tx: Tx, i: nat, first: nat, done: seq<Entry>,
                       batch: Db, ethTxIndex: nat, gas: nat)
    requires i < |tx.messages| && first == |done|
    requires Numbered(done + MessageEntries(height, txIndex, tx, |tx.messages|, first))
    requires Collected(height, txIndex, tx, i, first, done, batch, ethTxIndex, gas)
    ensures !Kept(tx, i) ==> Collected(height, txIndex, tx, i + 1, first, done, batch, ethTxIndex, gas)
    ensures Kept(tx, i) ==>
              var e := NewEntry(height, txIndex, tx, i, ethTxIndex, gas);
              InRange(e) && Collected(height, txIndex, tx, i + 1, first, done, SaveTxResult(batch, e),
                                      ethTxIndex + 1, e.result.cumulativeGasUsed)
  {
    if Kept(tx, i) {
      var mine := MessageEntries(height, txIndex, tx, i, first);
      var e := NewEntry(height, txIndex, tx, i, ethTxIndex, gas);
      assert MessageEntries(height, txIndex, tx, i + 1, first) == mine + [e];
      MessageEntriesPrefix(height, txIndex, tx, i + 1, first);
      BatchExtend(done, mine, e, MessageEntries(height, txIndex, tx, |tx.messages|, first));
    }
  }

  lemma BatchExtend(done: seq<Entry>, mine: seq<Entry>, e: Entry, full: seq<Entry>)
    requires Numbered(done + full) && mine + [e] <= full && Numbered(done + mine)
    ensures InRange(e) && Numbered(done + (mine + [e]))
    ensures Batch(done + (mine + [e])) == SaveTxResult(Batch(done + mine), e)
  {
    var all := done + (mine + [e]);
    forall k | 0 <= k < |all| ensures InRange(all[k]) {
      assert (done + full)[k] == all[k];
    }
    assert all[..|all|-1] == done + mine && all[|all|-1] == e;
  }

  lemma {:induction false} MessageEntriesPrefix(height: nat, txIndex: nat, tx: Tx, n: nat, next: nat)
    requires n <= |tx.messages|
    ensures MessageEntries(height, txIndex, tx, n, next) <= MessageEntries(height, txIndex, tx, |tx.messages|, next)
    decreases |tx.messages| - n
  {
    if n < |tx.messages| {
      MessageEntriesPrefix(height, txIndex, tx, n + 1, next);
    }
  }
}
