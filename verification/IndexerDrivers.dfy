/** The drivers of the indexer: the backward and forward commands of server/indexer_cmd.go and the
    catch-up service of server/indexer_service.go. A run is the list of heights indexed so far. */
module IndexerDrivers {
  import opened KVIndexer

  // Every height between two indexed blocks with eth transactions has been indexed.
  ghost predicate NoGaps(chain: Chain, run: seq<nat>) {
    forall a, b, h: nat :: a in run && HasEthTx(chain, a) && b in run && HasEthTx(chain, b) && a <= h <= b ==> h in run
  }

  // The last (or first) indexed height with eth transactions, or -1.
  ghost function EndOf(chain: Chain, run: seq<nat>, last: bool): (h: int)
    ensures h >= -1 && IsEnd(chain, run, h, last)
  {
    if run == [] then -1
    else
      var x, e := run[|run|-1], EndOf(chain, run[..|run|-1], last);
      assert run == run[..|run|-1] + [x];
      if !HasEthTx(chain, x) then e
      else if e == -1 || (if last then e < x else x < e) then x
      else e
  }

  lemma EndIsUnique(chain: Chain, run: seq<nat>, h: int, last: bool)
    requires h >= -1 && IsEnd(chain, run, h, last)
    ensures h == EndOf(chain, run, last)
  {
  }

  // Where the forward command starts, and where the backward one does.
  ghost function NextUp(chain: Chain, run: seq<nat>): nat {
    var last := EndOf(chain, run, true);
    if last == -1 then 1 else last + 1
  }

  ghost function NextDown(chain: Chain, run: seq<nat>, storeHeight: nat): int {
    var first := EndOf(chain, run, false);
    (if first == -1 then storeHeight else first) - 1
  }

  function Up(from: nat, n: nat): seq<nat> {
    if n == 0 then [] else Up(from, n - 1) + [from + n - 1]
  }

  function Down(from: nat, n: nat): seq<nat>
    requires n <= from + 1
  {
    if n == 0 then [] else Down(from, n - 1) + [from + 1 - n]
  }

  lemma {:induction false} UpMembers(from: nat, n: nat)
    ensures forall h :: h in Up(from, n) <==> from <= h < from + n
  {
    if n > 0 {
      UpMembers(from, n - 1);
    }
  }

  lemma {:induction false} DownMembers(from: nat, n: nat)
    requires n <= from + 1
    ensures forall h :: h in Down(from, n) <==> from - n < h <= from
  {
    if n > 0 {
      DownMembers(from, n - 1);
    }
  }

  lemma OneMoreUp(run: seq<nat>, from: nat, n: nat)
    ensures run + Up(from, n) + [from + n] == run + Up(from, n + 1)
  {
    assert run + Up(from, n) + [from + n] == run + (Up(from, n) + [from + n]);
  }

  lemma OneMoreDown(run: seq<nat>, from: nat, n: nat)
    requires n <= from
    ensures run + Down(from, n) + [from - n] == run + Down(from, n + 1)
  {
    assert run + Down(from, n) + [from - n] == run + (Down(from, n) + [from - n]);
  }

  // From an empty index the backward command starts one below the latest block and never indexes that block.
  lemma BackwardSkipsLatestBlock(chain: Chain, run: seq<nat>, storeHeight: nat, n: nat)
    requires (forall h :: h in run ==> !HasEthTx(chain, h)) && storeHeight !in run
    requires 0 <= n <= NextDown(chain, run, storeHeight) + 1
    ensures NextDown(chain, run, storeHeight) == storeHeight - 1
    ensures storeHeight > 0 ==> storeHeight !in run + Down(NextDown(chain, run, storeHeight), n)
  {
    EndIsUnique(chain, run, -1, false);
    if storeHeight > 0 {
      DownMembers(storeHeight - 1, n);
    }
  }

  // ---------- The commands ----------

  // Which steps succeed at a height: loading the block and its results, and writing the batch.
  datatype Luck = Luck(loads: nat -> bool, stores: nat -> bool)

  method IndexAt(idx: Indexer, blocks: Chain, h: nat, loads: bool, stores: bool) returns (ok: bool)
    requires idx.Valid() && blocks == idx.chain && 1 <= h <= MAX_INT64
    modifies idx
    ensures idx.Valid() && ok == (loads && stores)
    ensures idx.run == if ok then old(idx.run) + [h] else old(idx.run)
  {
    if !loads {
      return false;
    }
    ok := idx.IndexBlock(blocks(h), stores);
  }

  // The block after the n already indexed.
  method IndexNextUp(idx: Indexer, blocks: Chain, from: nat, luck: Luck, i: nat, ghost before: seq<nat>, ghost n: nat)
    returns (ok: bool)
    requires idx.Valid() && blocks == idx.chain && 1 <= i == from + n <= MAX_INT64 && idx.run == before + Up(from, n)
    modifies idx
    ensures idx.Valid() && idx.run == before + Up(from, if ok then n + 1 else n)
  {
    OneMoreUp(before, from, n);
    ok := IndexAt(idx, blocks, i, luck.loads(i), luck.stores(i));
  }

  method IndexUp(idx: Indexer, blocks: Chain, from: nat, storeHeight: nat, luck: Luck) returns (ok: bool, ghost n: nat)
    requires idx.Valid() && blocks == idx.chain && 1 <= from && storeHeight <= MAX_INT64
    modifies idx
    ensures idx.Valid() && idx.run == old(idx.run) + Up(from, n)
    ensures ok ==> n == if storeHeight < from then 0 else storeHeight + 1 - from
  {
    var i := from;
    n := 0;
    ghost var before := idx.run;
    assert before + [] == before;
    while i <= storeHeight
      invariant idx.Valid() && i == from + n && (i == from || i <= storeHeight + 1)
      invariant idx.run == before + Up(from, n)
      decreases storeHeight - i
    {
      ok := IndexNextUp(idx, blocks, from, luck, i, before, n);
      if !ok {
        return;
      }
      n := n + 1;
      i := i + 1;
    }
    ok := true;
  }

  // What a forward command is for: it adds every block above all indexed eth blocks, up to the store's height.
  ghost predicate IndexedUpTo(chain: Chain, before: seq<nat>, after: seq<nat>, storeHeight: nat) {
    forall h :: h in after <==>
      h in before || (1 <= h <= storeHeight && forall a :: a in before && HasEthTx(chain, a) ==> a < h)
  }

  lemma ForwardIndexes(chain: Chain, run: seq<nat>, storeHeight: nat)
    ensures var from := NextUp(chain, run);
            var n := if storeHeight < from then 0 else storeHeight + 1 - from;
            IndexedUpTo(chain, run, run + Up(from, n), storeHeight)
  {
    var from := NextUp(chain, run);
    UpMembers(from, if storeHeight < from then 0 else storeHeight + 1 - from);
  }

  // A backward command adds every block below all indexed eth blocks or, when there is none, below the store's
  // height.
  ghost predicate IndexedDownFrom(chain: Chain, before: seq<nat>, after: seq<nat>, storeHeight: nat) {
    forall h :: h in after <==>
      h in before || (1 <= h && (forall a :: a in before && HasEthTx(chain, a) ==> h < a) &&
                      ((forall a :: a in before ==> !HasEthTx(chain, a)) ==> h < storeHeight))
  }

  lemma BackwardIndexes(chain: Chain, run: seq<nat>, storeHeight: nat)
    ensures var from := NextDown(chain, run, storeHeight);
            IndexedDownFrom(chain, run, if from < 0 then run else run + Down(from, from), storeHeight)
  {
    var from := NextDown(chain, run, storeHeight);
    if from >= 0 {
      DownMembers(from, from);
    }
  }

  // index-eth-tx forward: n blocks are indexed before the command ends or fails.
  method Forward(idx: Indexer, blocks: Chain, storeHeight: nat, luck: Luck) returns (ok: bool, ghost n: nat)
    requires idx.Valid() && blocks == idx.chain && storeHeight <= MAX_INT64
    modifies idx
    ensures idx.Valid()
    ensures var from := NextUp(idx.chain, old(idx.run));
            && idx.run == old(idx.run) + Up(from, n)
            && (ok ==> n == if storeHeight < from then 0 else storeHeight + 1 - from)
    ensures ok ==> IndexedUpTo(idx.chain, old(idx.run), idx.run, storeHeight)
  {
    ForwardIndexes(idx.chain, idx.run, storeHeight);
    var from := ForwardStart(idx);
    ok, n := IndexUp(idx, blocks, from, storeHeight, luck);
  }

  method ForwardStart(idx: Indexer) returns (from: nat)
    requires idx.Valid()
    ensures from == NextUp(idx.chain, idx.run) >= 1
  {
    var latest := idx.LastIndexedBlock();
    EndIsUnique(idx.chain, idx.run, latest, true);
    if latest == -1 {
      latest := 0;
    }
    return latest + 1;
  }

  method IndexDown(idx: Indexer, blocks: Chain, from: nat, luck: Luck) returns (ok: bool, ghost n: nat)
    requires idx.Valid() && blocks == idx.chain && from <= MAX_INT64
    modifies idx
    ensures idx.Valid() && n <= from && idx.run == old(idx.run) + Down(from, n)
    ensures ok ==> n == from
  {
    var i := from;
    n := 0;
    ghost var before := idx.run;
    assert before + [] == before;
    while i > 0
      invariant idx.Valid() && i >= 0 && i + n == from
      invariant idx.run == before + Down(from, n)
      decreases i
    {
      OneMoreDown(before, from, n);
      ok := IndexAt(idx, blocks, i, luck.loads(i), luck.stores(i));
      if !ok {
        return;
      }
      n := n + 1;
      i := i - 1;
    }
    ok := true;
  }

  method BackwardStart(idx: Indexer, storeHeight: nat) returns (from: int)
    requires idx.Valid() && storeHeight <= MAX_INT64
    ensures from == NextDown(idx.chain, idx.run, storeHeight) <= MAX_INT64
  {
    var first := idx.FirstIndexedBlock();
    EndIsUnique(idx.chain, idx.run, first, false);
    EndIsSmall(idx.chain, idx.run, first, false);
    if first == -1 {
      first := storeHeight;
    }
    return first - 1;
  }

  // index-eth-tx backward. From an empty index it starts below the latest block, not at it.
  method Backward(idx: Indexer, blocks: Chain, storeHeight: nat, luck: Luck) returns (ok: bool, ghost n: nat)
    requires idx.Valid() && blocks == idx.chain && storeHeight <= MAX_INT64
    modifies idx
    ensures idx.Valid()
    ensures var from := NextDown(idx.chain, old(idx.run), storeHeight);
            if from < 0 then ok && idx.run == old(idx.run)
            else n <= from && idx.run == old(idx.run) + Down(from, n) && (ok ==> n == from)
    ensures ok ==> IndexedDownFrom(idx.chain, old(idx.run), idx.run, storeHeight)
  {
    BackwardIndexes(idx.chain, idx.run, storeHeight);
    var from := BackwardStart(idx, storeHeight);
    if from < 0 {
      return true, 0;
    }
    ok, n := IndexDown(idx, blocks, from, luck);
  }

  lemma EndIsSmall(chain: Chain, run: seq<nat>, h: int, last: bool)
    requires GoodRun(run) && h >= -1 && IsEnd(chain, run, h, last)
    ensures h <= MAX_INT64
  {
  }

  // ---------- The service ----------

  datatype Outcome = BlockFetchFails | ResultsFetchFails | IndexingFails | Indexed

  datatype Event =
    | Header(height: nat)     // the subscription goroutine receives a header
    | Wake                    // the new-block signal or the timeout
    | Fetch(outcome: Outcome) // the loop handles the block after lastBlock

  datatype Service = Service(latestBlock: nat, lastBlock: nat, blockErr: bool, run: seq<nat>)

  ghost function StartService(chain: Chain, run: seq<nat>, latestBlock: nat): Service {
    var last := EndOf(chain, run, true);
    Service(latestBlock, if last == -1 then latestBlock else last, false, run)
  }

  // The loop waits, and fetches nothing, while it is caught up or a fetch has failed.
  predicate Waiting(s: Service) {
    s.latestBlock <= s.lastBlock || s.blockErr
  }

  function Step(s: Service, e: Event): Service {
    match e
    case Header(h) => if h > s.latestBlock then s.(latestBlock := h) else s
    case Wake => s
    case Fetch(outcome) =>
      if Waiting(s) then s
      else
        match outcome
        case BlockFetchFails => s.(blockErr := true)
        case ResultsFetchFails => s.(blockErr := true)
        case IndexingFails => s.(lastBlock := s.lastBlock + 1)
        case Indexed => s.(lastBlock := s.lastBlock + 1, run := s.run + [s.lastBlock + 1])
  }

  function Steps(s: Service, events: seq<Event>): Service {
    if events == [] then s else Step(Steps(s, events[..|events|-1]), events[|events|-1])
  }

  // The service starts behind the last indexed eth block or, when there is none, behind the latest block.
  lemma ServiceStart(chain: Chain, run: seq<nat>, latestBlock: nat)
    ensures var s := StartService(chain, run, latestBlock);
            && s.latestBlock == latestBlock && !s.blockErr && s.run == run
            && if exists a :: a in run && HasEthTx(chain, a)
               then s.lastBlock in run && HasEthTx(chain, s.lastBlock) &&
                    forall a :: a in run && HasEthTx(chain, a) ==> a <= s.lastBlock
               else s.lastBlock == latestBlock
  {
    assert IsEnd(chain, run, EndOf(chain, run, true), true);
  }

  // latestBlock is the largest height that the service started with or received in a header.
  lemma {:induction false} LatestIsLargestHeader(s: Service, events: seq<Event>)
    ensures var latest := Steps(s, events).latestBlock;
            && s.latestBlock <= latest
            && (forall k :: 0 <= k < |events| && events[k].Header? ==> events[k].height <= latest)
            && (latest == s.latestBlock || Header(latest) in events)
  {
    if events != [] {
      LatestIsLargestHeader(s, events[..|events|-1]);
    }
  }

  // From the first indexed eth block on, every height up to lastBlock is indexed or missed, and no height
  // above is an indexed eth block.
  ghost predicate CoveredUpTo(chain: Chain, s: Service, missed: set<nat>) {
    && (forall a, h: nat :: a in s.run && HasEthTx(chain, a) && a <= h <= s.lastBlock ==> h in s.run || h in missed)
    && (forall a :: a in s.run && HasEthTx(chain, a) ==> a <= s.lastBlock)
  }

  ghost predicate Covered(chain: Chain, s: Service) {
    CoveredUpTo(chain, s, {})
  }

  ghost predicate NoIndexingFailure(events: seq<Event>) {
    forall k :: 0 <= k < |events| ==> events[k] != Fetch(IndexingFails)
  }

  // A failure to index followed by a success leaves a gap.
  lemma FailureThenSuccessLeavesGap(chain: Chain, h: nat)
    requires HasEthTx(chain, h) && HasEthTx(chain, h + 2)
    ensures var s := Service(h + 2, h, false, [h]);
            Covered(chain, s) && !NoGaps(chain, Steps(s, [Fetch(IndexingFails), Fetch(Indexed)]).run)
  {
    var s := Service(h + 2, h, false, [h]);
    var events := [Fetch(IndexingFails), Fetch(Indexed)];
    var run := Steps(s, events).run;
    assert run == [h, h + 2] by {
      assert events[..1][..0] == [] && Steps(s, events[..1]) == Step(s, Fetch(IndexingFails));
      assert Steps(s, events) == Step(Steps(s, events[..1]), Fetch(Indexed));
    }
    assert run[0] == h && run[1] == h + 2 && h + 1 !in run;
  }

  // ---------- Gaps ----------

  // The heights that a schedule steps past because indexing them fails.
  ghost function Missed(s: Service, events: seq<Event>): set<nat> {
    if events == [] then {}
    else
      var before := Steps(s, events[..|events|-1]);
      Missed(s, events[..|events|-1])
      + if events[|events|-1] == Fetch(IndexingFails) && !Waiting(before) then {before.lastBlock + 1} else {}
  }

  // added are, in increasing order, the heights above from up to last that were not missed.
  ghost predicate IndexedInOrder(added: seq<nat>, from: nat, last: nat, missed: set<nat>) {
    && from <= last && (forall h :: h in missed ==> from < h <= last)
    && (forall h :: h in added <==> from < h <= last && h !in missed)
    && (forall j, k :: 0 <= j < k < |added| ==> added[j] < added[k])
  }

  ghost predicate HasIndexed(s: Service, t: Service, missed: set<nat>) {
    && s.run <= t.run && IndexedInOrder(t.run[|s.run|..], s.lastBlock, t.lastBlock, missed)
    && (t.lastBlock == s.lastBlock || t.lastBlock <= t.latestBlock)
  }

  // The service indexes the heights from lastBlock on one by one, each once, and never runs ahead of latestBlock.
  lemma {:induction false} ServiceIndexesInOrder(s: Service, events: seq<Event>)
    ensures HasIndexed(s, Steps(s, events), Missed(s, events))
  {
    if events != [] {
      var init := events[..|events|-1];
      ServiceIndexesInOrder(s, init);
      NextIndexed(s, Steps(s, init), events[|events|-1], Missed(s, init));
    }
  }

  lemma NextIndexed(s: Service, t: Service, e: Event, missed: set<nat>)
    requires HasIndexed(s, t, missed)
    ensures HasIndexed(s, Step(t, e),
                       missed + if e == Fetch(IndexingFails) && !Waiting(t) then {t.lastBlock + 1} else {})
  {
    var added, h := t.run[|s.run|..], t.lastBlock + 1;
    assert (t.run + [h])[|s.run|..] == added + [h];
    AppendNext(added, s.lastBlock, t.lastBlock, missed);
    MissNext(added, s.lastBlock, t.lastBlock, missed);
    assert missed + {} == missed;
  }

  lemma AppendNext(added: seq<nat>, from: nat, last: nat, missed: set<nat>)
    requires IndexedInOrder(added, from, last, missed)
    ensures IndexedInOrder(added + [last + 1], from, last + 1, missed)
  {
    forall k | 0 <= k < |added| ensures added[k] < last + 1 {
      assert added[k] in added;
    }
  }

  lemma MissNext(added: seq<nat>, from: nat, last: nat, missed: set<nat>)
    requires IndexedInOrder(added, from, last, missed)
    ensures IndexedInOrder(added, from, last + 1, missed + {last + 1})
  {
  }

  // Indexed eth blocks have only indexed and missed heights between them.
  ghost predicate GapsAreMissed(chain: Chain, run: seq<nat>, missed: set<nat>) {
    forall a, b, h: nat :: a in run && HasEthTx(chain, a) && b in run && HasEthTx(chain, b) && a <= h <= b ==>
      h in run || h in missed
  }

  // Some indexed eth block lies below f and some above it.
  ghost predicate Enclosed(chain: Chain, run: seq<nat>, f: nat) {
    && (exists a :: a in run && HasEthTx(chain, a) && a < f)
    && (exists b :: b in run && HasEthTx(chain, b) && f < b)
  }

  // When all gaps are missed heights, there is none exactly when no missed height lies between indexed eth
  // blocks without being indexed itself.
  lemma NoGapsIff(chain: Chain, run: seq<nat>, missed: set<nat>)
    requires GapsAreMissed(chain, run, missed)
    ensures NoGaps(chain, run) <==> forall f :: f in missed && f !in run ==> !Enclosed(chain, run, f)
  {
    if forall f :: f in missed && f !in run ==> !Enclosed(chain, run, f) {
      forall a, b, h: nat | a in run && HasEthTx(chain, a) && b in run && HasEthTx(chain, b) && a <= h <= b
        ensures h in run
      {
        assert h in run || h in missed;
        assert h == a || h == b || Enclosed(chain, run, h);
      }
    }
  }

  lemma {:induction false} StepsCoverUpTo(chain: Chain, s: Service, events: seq<Event>, missed: set<nat>)
    requires CoveredUpTo(chain, s, missed)
    ensures CoveredUpTo(chain, Steps(s, events), missed + Missed(s, events))
  {
    if events != [] {
      var init, e := events[..|events|-1], events[|events|-1];
      StepsCoverUpTo(chain, s, init, missed);
      StepCoversUpTo(chain, Steps(s, init), e, missed + Missed(s, init));
      var more := if e == Fetch(IndexingFails) && !Waiting(Steps(s, init)) then {Steps(s, init).lastBlock + 1} else {};
      assert missed + Missed(s, init) + more == missed + Missed(s, events);
    }
  }

  lemma StepCoversUpTo(chain: Chain, s: Service, e: Event, missed: set<nat>)
    requires CoveredUpTo(chain, s, missed)
    ensures var more := if e == Fetch(IndexingFails) && !Waiting(s) then {s.lastBlock + 1} else {};
            CoveredUpTo(chain, Step(s, e), missed + more)
  {
  }

  // From a covered start, a service run leaves no gap exactly when no height that it stepped past, and that
  // is not indexed, lies between indexed eth blocks.
  lemma ServiceLeavesNoGapIff(chain: Chain, s: Service, events: seq<Event>)
    requires Covered(chain, s)
    ensures var run := Steps(s, events).run;
            NoGaps(chain, run) <==> forall f :: f in Missed(s, events) && f !in run ==> !Enclosed(chain, run, f)
  {
    StepsCoverUpTo(chain, s, events, {});
    assert {} + Missed(s, events) == Missed(s, events);
    NoGapsIff(chain, Steps(s, events).run, Missed(s, events));
  }

  // ---------- Failed fetches ----------

  // Once a fetch has failed the service indexes nothing more, whatever happens.
  lemma {:induction false} FetchFailureIsAbsorbing(s: Service, events: seq<Event>)
    requires s.blockErr
    ensures var t := Steps(s, events); t.blockErr && t.lastBlock == s.lastBlock && t.run == s.run
  {
    if events != [] {
      FetchFailureIsAbsorbing(s, events[..|events|-1]);
    }
  }

  // One failed fetch: block 1 could be indexed now, and is never indexed after the failure, whatever follows.
  lemma FailedFetchIsNeverRetried(more: seq<Event>)
    ensures var s := Service(1, 0, false, []);
            && Steps(s, [Fetch(Indexed)]).run == [1]
            && Steps(Steps(s, [Fetch(BlockFetchFails)]), more).run == []
  {
    var s := Service(1, 0, false, []);
    assert [Fetch(Indexed)][..0] == [] && [Fetch(BlockFetchFails)][..0] == [];
    FetchFailureIsAbsorbing(Steps(s, [Fetch(BlockFetchFails)]), more);
  }

  lemma {:induction false} SuccessfulFetches(s: Service, n: nat)
    requires !s.blockErr && s.lastBlock + n <= s.latestBlock
    ensures var t := Steps(s, seq(n, i => Fetch(Indexed)));
            t == s.(lastBlock := s.lastBlock + n, run := s.run + Up(s.lastBlock + 1, n))
  {
    var events := seq(n, i => Fetch(Indexed));
    if n == 0 {
      assert events == [] && s.run + [] == s.run;
    } else {
      assert events[..n-1] == seq(n - 1, i => Fetch(Indexed));
      SuccessfulFetches(s, n - 1);
      assert Up(s.lastBlock + 1, n) == Up(s.lastBlock + 1, n - 1) + [s.lastBlock + n];
    }
  }

  // A fetch that the schedule makes while the loop is not waiting, and that fails.
  ghost predicate FetchFailsAt(s: Service, events: seq<Event>, k: nat) {
    && k < |events| && events[k] in {Fetch(BlockFetchFails), Fetch(ResultsFetchFails)}
    && !Waiting(Steps(s, events[..k]))
  }

  // The error flag is up exactly when some fetch of the schedule has failed.
  lemma {:induction false} ErrorMeansFailedFetch(s: Service, events: seq<Event>)
    requires !s.blockErr
    ensures Steps(s, events).blockErr <==> exists k: nat :: FetchFailsAt(s, events, k)
  {
    if events != [] {
      var n := |events| - 1;
      var init := events[..n];
      ErrorMeansFailedFetch(s, init);
      forall k: nat | k < n ensures FetchFailsAt(s, events, k) <==> FetchFailsAt(s, init, k) {
        assert events[..k] == init[..k];
      }
      assert FetchFailsAt(s, events, n) <==>
        events[n] in {Fetch(BlockFetchFails), Fetch(ResultsFetchFails)} && !Waiting(Steps(s, init));
      if k: nat :| FetchFailsAt(s, init, k) {
        assert FetchFailsAt(s, events, k);
      }
      if k: nat :| FetchFailsAt(s, events, k) {
        assert k == n || FetchFailsAt(s, init, k);
      }
    }
  }

  // When the client answers again, the service can catch up exactly if no fetch has failed before.
  lemma CatchesUpIffNoFetchFailed(s: Service, events: seq<Event>)
    requires !s.blockErr && Steps(s, events).lastBlock < Steps(s, events).latestBlock
    ensures var t := Steps(s, events);
            (exists more :: Steps(t, more).lastBlock >= t.latestBlock) <==> !exists k: nat :: FetchFailsAt(s, events, k)
  {
    var t := Steps(s, events);
    ErrorMeansFailedFetch(s, events);
    if t.blockErr {
      forall more ensures Steps(t, more).lastBlock < t.latestBlock {
        FetchFailureIsAbsorbing(t, more);
      }
    } else {
      var n := t.latestBlock - t.lastBlock;
      SuccessfulFetches(t, n);
      assert Steps(t, seq(n, i => Fetch(Indexed))).lastBlock >= t.latestBlock;
    }
  }

  // OnStart, under one interleaving of headers, wake-ups and fetch outcomes.
  method OnStart(idx: Indexer, blocks: Chain, latest: nat, schedule: seq<Event>)
    returns (latestBlock: nat, lastBlock: nat, blockErr: bool)
    requires idx.Valid() && blocks == idx.chain && latest <= MAX_INT64 && SmallHeaders(schedule)
    modifies idx
    ensures idx.Valid()
    ensures Service(latestBlock, lastBlock, blockErr, idx.run) ==
            Steps(StartService(idx.chain, old(idx.run), latest), schedule)
  {
    var last := idx.LastIndexedBlock();
    EndIsUnique(idx.chain, idx.run, last, true);
    latestBlock, lastBlock, blockErr := latest, if last == -1 then latest else last, false;
    latestBlock, lastBlock, blockErr := Serve(idx, blocks, latestBlock, lastBlock, schedule);
  }

  ghost predicate SmallHeaders(schedule: seq<Event>) {
    forall k :: 0 <= k < |schedule| && schedule[k].Header? ==> schedule[k].height <= MAX_INT64
  }

  // The outer loop.
  method Serve(idx: Indexer, blocks: Chain, latest: nat, last: nat, schedule: seq<Event>)
    returns (latestBlock: nat, lastBlock: nat, blockErr: bool)
    requires idx.Valid() && blocks == idx.chain && latest <= MAX_INT64 && SmallHeaders(schedule)
    modifies idx
    ensures idx.Valid()
    ensures Service(latestBlock, lastBlock, blockErr, idx.run) ==
            Steps(Service(latest, last, false, old(idx.run)), schedule)
  {
    ghost var start := Service(latest, last, false, idx.run);
    latestBlock, lastBlock, blockErr := latest, last, false;
    var k := 0;
    while k < |schedule|
      invariant 0 <= k <= |schedule|
      invariant idx.Valid() && latestBlock <= MAX_INT64
      invariant Service(latestBlock, lastBlock, blockErr, idx.run) == Steps(start, schedule[..k])
      decreases |schedule| - k
    {
      if latestBlock <= lastBlock || blockErr {
        latestBlock, k := Wait(latestBlock, schedule, k, Service(latestBlock, lastBlock, blockErr, idx.run), start);
      } else {
        latestBlock, lastBlock, blockErr, k := IndexNewBlocks(idx, blocks, latestBlock, lastBlock, schedule, k, start);
      }
    }
    assert schedule[..k] == schedule;
  }

  lemma OneMoreStep(s: Service, events: seq<Event>, k: nat)
    requires k < |events|
    ensures Steps(s, events[..k+1]) == Step(Steps(s, events[..k]), events[k])
  {
    assert events[..k+1][..k] == events[..k];
  }

  // The inner loop. latestBlock is read anew in every round, and a failed fetch ends it.
  method IndexNewBlocks(idx: Indexer, blocks: Chain, latest: nat, last: nat, schedule: seq<Event>, at: nat,
                        ghost start: Service)
    returns (latestBlock: nat, lastBlock: nat, blockErr: bool, k: nat)
    requires idx.Valid() && blocks == idx.chain && latest <= MAX_INT64 && SmallHeaders(schedule)
    requires last < latest && at < |schedule|
    requires Service(latest, last, false, idx.run) == Steps(start, schedule[..at])
    modifies idx
    ensures idx.Valid() && latestBlock <= MAX_INT64 && at < k <= |schedule|
    ensures Service(latestBlock, lastBlock, blockErr, idx.run) == Steps(start, schedule[..k])
  {
    latestBlock, lastBlock, blockErr, k := latest, last, false, at;
    while lastBlock + 1 <= latestBlock && !blockErr && k < |schedule|
      invariant at <= k <= |schedule| && (k == at ==> lastBlock + 1 <= latestBlock && !blockErr)
      invariant idx.Valid() && latestBlock <= MAX_INT64
      invariant Service(latestBlock, lastBlock, blockErr, idx.run) == Steps(start, schedule[..k])
      decreases |schedule| - k
    {
      OneMoreStep(start, schedule, k);
      latestBlock, lastBlock, blockErr := HandleNext(idx, blocks, latestBlock, lastBlock, schedule[k]);
      k := k + 1;
    }
  }

  // One round: a header arrives meanwhile, or the block after lastBlock is fetched and indexed.
  method HandleNext(idx: Indexer, blocks: Chain, latest: nat, last: nat, e: Event)
    returns (latestBlock: nat, lastBlock: nat, blockErr: bool)
    requires idx.Valid() && blocks == idx.chain && last < latest <= MAX_INT64 && (e.Header? ==> e.height <= MAX_INT64)
    modifies idx
    ensures idx.Valid() && latestBlock <= MAX_INT64
    ensures Service(latestBlock, lastBlock, blockErr, idx.run) == Step(Service(latest, last, false, old(idx.run)), e)
  {
    latestBlock, lastBlock, blockErr := latest, last, false;
    match e {
      case Wake =>
      case Header(h) =>
        if h > latestBlock {
          latestBlock := h;
        }
      case Fetch(outcome) =>
        if outcome == BlockFetchFails || outcome == ResultsFetchFails {
          blockErr := true;
        } else {
          var ok := IndexAt(idx, blocks, last + 1, true, outcome == Indexed);
          lastBlock := last + 1;
        }
    }
  }

  // A wait ends with a header, a signal or a timeout.
  method Wait(latestBlock: nat, schedule: seq<Event>, k: nat, ghost s: Service, ghost start: Service)
    returns (latestBlock': nat, k': nat)
    requires k < |schedule| && latestBlock <= MAX_INT64 && Waiting(s) && s.latestBlock == latestBlock
    requires s == Steps(start, schedule[..k])
    requires schedule[k].Header? ==> schedule[k].height <= MAX_INT64
    ensures k' == k + 1 && latestBlock' <= MAX_INT64
    ensures s.(latestBlock := latestBlock') == Steps(start, schedule[..k'])
  {
    latestBlock', k' := latestBlock, k + 1;
    OneMoreStep(start, schedule, k);
    if schedule[k].Header? && schedule[k].height > latestBlock {
      latestBlock' := schedule[k].height;
    }
  }

  // ---------- Any sequence of sessions ----------

  // One session of a driver, stopped anywhere: after n blocks for a command, after a schedule for the service.
  datatype Session =
    | ForwardSession(n: nat)
    | BackwardSession(storeHeight: nat, n: nat)
    | ServiceSession(latestBlock: nat, events: seq<Event>)

  ghost function RunSession(chain: Chain, run: seq<nat>, session: Session): seq<nat> {
    match session
    case ForwardSession(n) => run + Up(NextUp(chain, run), n)
    case BackwardSession(storeHeight, n) =>
      var from := NextDown(chain, run, storeHeight);
      if 0 <= n <= from then run + Down(from, n) else run
    case ServiceSession(latestBlock, events) => Steps(StartService(chain, run, latestBlock), events).run
  }

  ghost function RunSessions(chain: Chain, sessions: seq<Session>): seq<nat> {
    if sessions == [] then []
    else RunSession(chain, RunSessions(chain, sessions[..|sessions|-1]), sessions[|sessions|-1])
  }

  ghost function MissedBySessions(chain: Chain, sessions: seq<Session>): set<nat> {
    if sessions == [] then {}
    else
      var init, last := sessions[..|sessions|-1], sessions[|sessions|-1];
      MissedBySessions(chain, init)
      + if last.ServiceSession?
        then Missed(StartService(chain, RunSessions(chain, init), last.latestBlock), last.events)
        else {}
  }

  // One session, from any index whose gaps are missed heights.
  lemma SessionGapsAreMissed(chain: Chain, run: seq<nat>, session: Session, missed: set<nat>)
    requires GapsAreMissed(chain, run, missed)
    ensures var more := if session.ServiceSession?
                        then Missed(StartService(chain, run, session.latestBlock), session.events)
                        else {};
            GapsAreMissed(chain, RunSession(chain, run, session), missed + more)
  {
    match session
    case ForwardSession(n) => UpMembers(NextUp(chain, run), n);
    case BackwardSession(storeHeight, n) =>
      var from := NextDown(chain, run, storeHeight);
      if 0 <= n <= from {
        DownMembers(from, n);
      }
    case ServiceSession(latestBlock, events) =>
      var s := StartService(chain, run, latestBlock);
      assert CoveredUpTo(chain, s, missed);
      StepsCoverUpTo(chain, s, events, missed);
  }

  lemma {:induction false} SessionsGapsAreMissed(chain: Chain, sessions: seq<Session>)
    ensures GapsAreMissed(chain, RunSessions(chain, sessions), MissedBySessions(chain, sessions))
  {
    if sessions != [] {
      var init, last := sessions[..|sessions|-1], sessions[|sessions|-1];
      SessionsGapsAreMissed(chain, init);
      SessionGapsAreMissed(chain, RunSessions(chain, init), last, MissedBySessions(chain, init));
    }
  }

  // However forward, backward and service sessions follow one another and wherever each stops, the index
  // has no gap exactly when no height that the service stepped past, and no session indexed, lies between
  // indexed eth blocks.
  lemma SessionsLeaveNoGapIff(chain: Chain, sessions: seq<Session>)
    ensures var run := RunSessions(chain, sessions);
            NoGaps(chain, run) <==>
            forall f :: f in MissedBySessions(chain, sessions) && f !in run ==> !Enclosed(chain, run, f)
  {
    SessionsGapsAreMissed(chain, sessions);
    NoGapsIff(chain, RunSessions(chain, sessions), MissedBySessions(chain, sessions));
  }

  lemma {:induction false} NothingMissed(s: Service, events: seq<Event>)
    requires NoIndexingFailure(events)
    ensures Missed(s, events) == {}
  {
    if events != [] {
      assert NoIndexingFailure(events[..|events|-1]);
      NothingMissed(s, events[..|events|-1]);
    }
  }

  // In particular there is no gap when the service never fails to index.
  lemma {:induction false} SessionsLeaveNoGap(chain: Chain, sessions: seq<Session>)
    requires forall k :: 0 <= k < |sessions| && sessions[k].ServiceSession? ==> NoIndexingFailure(sessions[k].events)
    ensures MissedBySessions(chain, sessions) == {} && NoGaps(chain, RunSessions(chain, sessions))
  {
    if sessions != [] {
      var init, last := sessions[..|sessions|-1], sessions[|sessions|-1];
      SessionsLeaveNoGap(chain, init);
      if last.ServiceSession? {
        NothingMissed(StartService(chain, RunSessions(chain, init), last.latestBlock), last.events);
      }
    }
    SessionsLeaveNoGapIff(chain, sessions);
  }
}
