/** The price-and-nonce ordering of mempool/miner/ordering.go.

    The file has two halves. The first is a reference description that knows nothing of heaps: every
    account has a queue of payable transactions, and a step may emit the front of any queue that no
    other front beats. The second is the program: an array-backed binary heap of account fronts that
    is repaired by sift-down loops. Class `TransactionsByPriceAndNonce` is proved to take only steps
    of the reference. */
module Ordering {
  import opened Common

  datatype LazyTx = LazyTx(id: nat, feeCap: nat, tipCap: nat, time: int)

  // ---------- Reference: queues and best fronts ----------

  type Queues = map<Address, seq<LazyTx>>

  datatype Emission = Emission(from: Address, tx: LazyTx)

  predicate Covers(tx: LazyTx, baseFee: Option<nat>) {
    baseFee.None? || baseFee.value <= tx.feeCap
  }

  // The effective tip of EIP-1559: the smaller of the tip cap and what the fee cap leaves over the base fee.
  function Tip(tx: LazyTx, baseFee: Option<nat>): int {
    if baseFee.Some? && tx.feeCap - baseFee.value < tx.tipCap then tx.feeCap - baseFee.value else tx.tipCap
  }

  // The longest prefix of a nonce-ordered list whose fee caps all cover the base fee.
  function Payable(txs: seq<LazyTx>, baseFee: Option<nat>): seq<LazyTx> {
    if txs == [] || !Covers(txs[0], baseFee) then [] else [txs[0]] + Payable(txs[1..], baseFee)
  }

  function PayableQueues(txs: Queues, baseFee: Option<nat>): Queues {
    map a | a in txs && Payable(txs[a], baseFee) != [] :: Payable(txs[a], baseFee)
  }

  ghost predicate Beats(x: LazyTx, y: LazyTx, baseFee: Option<nat>) {
    Tip(x, baseFee) > Tip(y, baseFee) || (Tip(x, baseFee) == Tip(y, baseFee) && x.time < y.time)
  }

  // No account's front beats the front of account a.
  ghost predicate IsBest(q: Queues, a: Address, baseFee: Option<nat>) {
    && a in q && q[a] != []
    && forall b :: b in q && q[b] != [] ==> !Beats(q[b][0], q[a][0], baseFee)
  }

  function QueueOf(q: Queues, a: Address): seq<LazyTx> {
    if a in q then q[a] else []
  }

  function DropFirst(q: Queues, a: Address): Queues {
    if |QueueOf(q, a)| <= 1 then q - {a} else q[a := q[a][1..]]
  }

  ghost function After(q: Queues, out: seq<Emission>): Queues {
    if out == [] then q else DropFirst(After(q, out[..|out|-1]), out[|out|-1].from)
  }

  // A run of the reference: each emission is the front of a best queue at that moment.
  ghost predicate IsRun(q: Queues, out: seq<Emission>, baseFee: Option<nat>) {
    out == [] || (
      var init, last := out[..|out|-1], out[|out|-1];
      IsRun(q, init, baseFee) && IsRunStep(After(q, init), last, baseFee))
  }

  ghost predicate IsRunStep(q: Queues, e: Emission, baseFee: Option<nat>) {
    IsBest(q, e.from, baseFee) && q[e.from][0] == e.tx
  }

  function OfAccount(out: seq<Emission>, a: Address): seq<LazyTx> {
    if out == [] then []
    else OfAccount(out[..|out|-1], a) + if out[|out|-1].from == a then [out[|out|-1].tx] else []
  }

  // One slot for each transaction still queued.
  ghost function Slots(q: Queues): set<(Address, nat)> {
    set a, k: nat | a in q && 0 <= k < |q[a]| :: (a, k)
  }

  lemma {:induction false} PayableIsLongestPrefix(txs: seq<LazyTx>, baseFee: Option<nat>)
    ensures Payable(txs, baseFee) <= txs
    ensures forall k :: 0 <= k < |Payable(txs, baseFee)| ==> Covers(txs[k], baseFee)
    ensures |Payable(txs, baseFee)| < |txs| ==> !Covers(txs[|Payable(txs, baseFee)|], baseFee)
  {
    if txs != [] && Covers(txs[0], baseFee) {
      PayableIsLongestPrefix(txs[1..], baseFee);
    }
  }

  // What is queued for an account, in the transactions' own fields.
  lemma QueuesArePayablePrefixes(input: Queues, baseFee: Option<nat>, a: Address)
    ensures var all, mine := QueueOf(input, a), QueueOf(PayableQueues(input, baseFee), a);
            && mine <= all
            && (baseFee.None? ==> mine == all)
            && (baseFee.Some? ==>
                  && (forall k :: 0 <= k < |mine| ==> baseFee.value <= all[k].feeCap)
                  && (|mine| < |all| ==> all[|mine|].feeCap < baseFee.value))
  {
    PayableIsLongestPrefix(QueueOf(input, a), baseFee);
  }

  lemma StepConservesQueues(q: Queues, e: Emission, a: Address)
    requires e.from in q && q[e.from] != [] && q[e.from][0] == e.tx
    ensures (if e.from == a then [e.tx] else []) + QueueOf(DropFirst(q, e.from), a) == QueueOf(q, a)
  {
  }

  lemma {:induction false} RunConservesQueues(q: Queues, out: seq<Emission>, baseFee: Option<nat>, a: Address)
    requires IsRun(q, out, baseFee)
    ensures OfAccount(out, a) + QueueOf(After(q, out), a) == QueueOf(q, a)
  {
    if out != [] {
      var init, last := out[..|out|-1], out[|out|-1];
      RunConservesQueues(q, init, baseFee, a);
      var mine := if last.from == a then [last.tx] else [];
      StepConservesQueues(After(q, init), last, a);
      Regroup(OfAccount(init, a), mine, QueueOf(After(q, out), a));
    }
  }

  lemma Regroup<T>(x: seq<T>, y: seq<T>, z: seq<T>)
    ensures (x + y) + z == x + (y + z)
  {
  }

  // A complete run emits every queue exactly once and in its own order.
  lemma CompleteRunEmitsEachQueueOnce(q: Queues, out: seq<Emission>, baseFee: Option<nat>)
    requires IsRun(q, out, baseFee) && After(q, out) == map[]
    ensures forall a :: OfAccount(out, a) == QueueOf(q, a)
  {
    forall a ensures OfAccount(out, a) == QueueOf(q, a) {
      RunConservesQueues(q, out, baseFee, a);
    }
  }

  lemma DropFirstRemovesOneSlot(q: Queues, a: Address)
    requires a in q && q[a] != []
    ensures Slots(DropFirst(q, a)) == Slots(q) - {(a, |q[a]| - 1)}
    ensures (a, |q[a]| - 1) in Slots(q)
  {
  }

  lemma {:induction false} RunLength(q: Queues, out: seq<Emission>, baseFee: Option<nat>)
    requires IsRun(q, out, baseFee)
    ensures |out| + |Slots(After(q, out))| == |Slots(q)|
  {
    if out != [] {
      RunLength(q, out[..|out|-1], baseFee);
      DropFirstRemovesOneSlot(After(q, out[..|out|-1]), out[|out|-1].from);
    }
  }

  // ---------- The heap of account fronts ----------

  datatype Head = Head(tx: LazyTx, from: Address, fees: nat)

  function NewTxWithMinerFee(tx: LazyTx, from: Address, baseFee: Option<nat>): (r: Option<Head>)
    ensures r.Some? <==> Covers(tx, baseFee)
    ensures r.None? <==> baseFee.Some? && tx.feeCap < baseFee.value
    ensures r.Some? ==> r.value == Head(tx, from, Tip(tx, baseFee))
    ensures r.Some? ==>
              var fees := r.value.fees;
              && fees <= tx.tipCap && (baseFee.Some? ==> baseFee.value + fees <= tx.feeCap)
              && (fees == tx.tipCap || (baseFee.Some? && baseFee.value + fees == tx.feeCap))
  {
    match baseFee
    case None => Some(Head(tx, from, tx.tipCap))
    case Some(fee) =>
      if tx.feeCap < fee then None
      else
        var tip := tx.feeCap - fee;
        Some(Head(tx, from, if tip > tx.tipCap then tx.tipCap else tip))
  }

  predicate Less(x: Head, y: Head) {
    if x.fees == y.fees then x.tx.time < y.tx.time else x.fees > y.fees
  }

  function Parent(j: int): int {
    (j - 1) / 2
  }

  ghost predicate EdgeOk(s: seq<Head>, j: int)
    requires 0 < j < |s|
  {
    !Less(s[j], s[Parent(j)])
  }

  // Heap order on every edge whose upper end is at index lo or beyond.
  ghost predicate HeapFrom(s: seq<Head>, lo: int) {
    forall j :: 0 < j < |s| && lo <= Parent(j) ==> EdgeOk(s, j)
  }

  // The index of the better child of i.
  function BestChild(s: seq<Head>, i: nat): nat
    requires 2 * i + 1 < |s|
  {
    if 2 * i + 2 < |s| && Less(s[2 * i + 2], s[2 * i + 1]) then 2 * i + 2 else 2 * i + 1
  }

  function SwapAt(s: seq<Head>, i: nat, j: nat): seq<Head>
    requires i < |s| && j < |s|
  {
    s[i := s[j]][j := s[i]]
  }

  // Sinks the element at i below every better child.
  function Sink(s: seq<Head>, i: nat): seq<Head>
    decreases |s| - i
  {
    if 2 * i + 1 >= |s| || !Less(s[BestChild(s, i)], s[i]) then s
    else Sink(SwapAt(s, i, BestChild(s, i)), BestChild(s, i))
  }

  // Heap order everywhere but below index i, which has itself been sunk from above.
  ghost predicate Sinking(s: seq<Head>, lo: nat, i: int) {
    && lo <= i
    && (forall j :: 0 < j < |s| && lo <= Parent(j) && Parent(j) != i ==> EdgeOk(s, j))
    && (i > lo ==>
          && lo <= Parent(i)
          && forall j :: 0 < j < |s| && Parent(j) == i && i < |s| ==> !Less(s[j], s[Parent(i)]))
  }

  lemma {:induction false} RootIsBest(s: seq<Head>, j: nat)
    requires j < |s| && HeapFrom(s, 0)
    ensures !Less(s[j], s[0])
  {
    if j > 0 {
      RootIsBest(s, Parent(j));
      assert EdgeOk(s, j);
    }
  }

  lemma SinkOneLevel(s: seq<Head>, lo: nat, i: nat)
    requires Sinking(s, lo, i)
    requires 2 * i + 1 < |s| && Less(s[BestChild(s, i)], s[i])
    ensures Sinking(SwapAt(s, i, BestChild(s, i)), lo, BestChild(s, i))
  {
    var best := BestChild(s, i);
    var t := SwapAt(s, i, best);
    forall j | 0 < j < |s| && lo <= Parent(j) && Parent(j) != best ensures EdgeOk(t, j) {
      if Parent(j) != i && j != i {
        assert EdgeOk(s, j);
      }
    }
    forall j | 0 < j < |s| && Parent(j) == best ensures !Less(t[j], t[i]) {
      assert EdgeOk(s, j);
    }
  }

  lemma {:induction false} SinkRestoresHeap(s: seq<Head>, lo: nat, i: nat)
    requires Sinking(s, lo, i)
    ensures HeapFrom(Sink(s, i), lo)
    decreases |s| - i
  {
    if 2 * i + 1 < |s| && Less(s[BestChild(s, i)], s[i]) {
      SinkOneLevel(s, lo, i);
      SinkRestoresHeap(SwapAt(s, i, BestChild(s, i)), lo, BestChild(s, i));
    }
  }

  lemma {:induction false} SinkPermutes(s: seq<Head>, i: nat)
    ensures multiset(Sink(s, i)) == multiset(s) && |Sink(s, i)| == |s|
    decreases |s| - i
  {
    if 2 * i + 1 < |s| && Less(s[BestChild(s, i)], s[i]) {
      SinkPermutes(SwapAt(s, i, BestChild(s, i)), BestChild(s, i));
    }
  }

  method Swap(a: array<Head>, i: nat, j: nat, n: nat)
    requires i < n <= a.Length && j < n
    modifies a
    ensures a[..n] == SwapAt(old(a[..n]), i, j)
  {
    a[i], a[j] := a[j], a[i];
  }

  method BetterChild(a: array<Head>, i: nat, n: nat) returns (j: nat)
    requires 2 * i + 1 < n <= a.Length
    ensures j == BestChild(a[..n], i)
  {
    j := 2 * i + 1;
    if j + 1 < n && Less(a[j + 1], a[j]) {
      j := j + 1;
    }
  }

  // container/heap's down on the first n elements.
  method Down(a: array<Head>, i0: nat, n: nat)
    requires n <= a.Length
    modifies a
    ensures a[..n] == Sink(old(a[..n]), i0)
  {
    var i := i0;
    while 2 * i + 1 < n
      invariant Sink(a[..n], i) == Sink(old(a[..n]), i0)
      decreases n - i
    {
      var j := BetterChild(a, i, n);
      if !Less(a[j], a[i]) {
        break;
      }
      Swap(a, i, j, n);
      i := j;
    }
  }

  // container/heap's Init: repairs every inner node, the deepest first.
  method Init(a: array<Head>)
    modifies a
    ensures HeapFrom(a[..a.Length], 0)
    ensures multiset(a[..a.Length]) == multiset(old(a[..a.Length]))
  {
    var n := a.Length;
    var i := n / 2 - 1;
    while i >= 0
      invariant -1 <= i
      invariant HeapFrom(a[..n], i + 1)
      invariant multiset(a[..n]) == multiset(old(a[..n]))
    {
      SinkPermutes(a[..n], i);
      SinkRestoresHeap(a[..n], i, i);
      Down(a, i, n);
      i := i - 1;
    }
  }

  method NewHeap(list: seq<Head>) returns (a: array<Head>)
    ensures fresh(a) && a.Length == |list|
    ensures HeapFrom(a[..|list|], 0) && multiset(a[..|list|]) == multiset(list)
  {
    a := new Head[|list|](i requires 0 <= i < |list| => list[i]);
    assert a[..a.Length] == list;
    Init(a);
  }

  // The last leaf takes the root's place and sinks.
  function WithoutRoot(s: seq<Head>): seq<Head>
    requires s != []
  {
    Sink(SwapAt(s, 0, |s| - 1)[..|s| - 1], 0)
  }

  lemma WithoutRootFacts(s: seq<Head>)
    requires s != [] && HeapFrom(s, 0)
    ensures HeapFrom(WithoutRoot(s), 0)
    ensures multiset(WithoutRoot(s)) == multiset(s) - multiset{s[0]}
  {
    var last := |s| - 1;
    var t := SwapAt(s, 0, last)[..last];
    SinkPermutes(t, 0);
    forall j | 0 < j < |t| && Parent(j) != 0 ensures EdgeOk(t, j) {
      assert EdgeOk(s, j);
    }
    SinkRestoresHeap(t, 0, 0);
    LastLeafMoves(s);
  }

  lemma LastLeafMoves(s: seq<Head>)
    requires s != []
    ensures multiset(SwapAt(s, 0, |s| - 1)[..|s| - 1]) == multiset(s) - multiset{s[0]}
  {
    var last := |s| - 1;
    var swapped := SwapAt(s, 0, last);
    assert swapped == swapped[..last] + [s[0]];
    assert multiset(swapped) == multiset(s);
  }

  // container/heap's Pop on the first n elements.
  method PopRoot(a: array<Head>, n: nat)
    requires 0 < n <= a.Length
    modifies a
    ensures a[..n-1] == WithoutRoot(old(a[..n]))
  {
    Swap(a, 0, n - 1, n);
    assert a[..n-1] == a[..n][..n-1];
    Down(a, 0, n - 1);
  }

  lemma ReplacedRootFacts(s: seq<Head>, y: Head)
    requires s != [] && HeapFrom(s, 0)
    ensures HeapFrom(Sink(s[0 := y], 0), 0)
    ensures multiset(Sink(s[0 := y], 0)) == multiset(s) - multiset{s[0]} + multiset{y}
  {
    SinkPermutes(s[0 := y], 0);
    forall j | 0 < j < |s| && Parent(j) != 0 ensures EdgeOk(s[0 := y], j) {
      assert EdgeOk(s, j);
    }
    SinkRestoresHeap(s[0 := y], 0, 0);
  }

  // ---------- The transaction set ----------

  // The heap entries ms and the leftover lists txs together hold exactly the queues q.
  ghost predicate Tracks(ms: multiset<Head>, txs: Queues, baseFee: Option<nat>, q: Queues) {
    && (forall h :: h in ms ==> TracksHead(ms, h, txs, baseFee, q))
    && (forall a :: a in q ==> HasFront(ms, a))
  }

  ghost predicate HasFront(ms: multiset<Head>, a: Address) {
    exists h :: h in ms && h.from == a
  }

  ghost predicate TracksHead(ms: multiset<Head>, h: Head, txs: Queues, baseFee: Option<nat>, q: Queues) {
    && ms[h] == 1
    && NewTxWithMinerFee(h.tx, h.from, baseFee) == Some(h)
    && h.from in q
    && q[h.from] == [h.tx] + Payable(QueueOf(txs, h.from), baseFee)
  }

  // One front for every account whose first transaction is payable; the other accounts are dropped.
  method CollectHeads(input: Queues, baseFee: Option<nat>) returns (list: seq<Head>, rest: Queues)
    requires forall a :: a in input ==> input[a] != []
    ensures Tracks(multiset(list), rest, baseFee, PayableQueues(input, baseFee))
  {
    list, rest := [], input;
    var todo := input.Keys;
    while todo != {}
      invariant todo <= input.Keys
      invariant forall a :: a in todo ==> a in rest && rest[a] == input[a]
      invariant forall h :: h in multiset(list) ==> h.from !in todo
      invariant Tracks(multiset(list), rest, baseFee, PayableQueues(input - todo, baseFee))
      decreases todo
    {
      var from :| from in todo;
      var accTxs := rest[from];
      var wrapped := NewTxWithMinerFee(accTxs[0], from, baseFee);
      CollectStep(multiset(list), rest, input, todo, from, baseFee);
      todo := todo - {from};
      if wrapped.None? {
        rest := rest - {from};
      } else {
        rest := rest[from := accTxs[1..]];
        assert multiset(list + [wrapped.value]) == multiset(list) + multiset{wrapped.value};
        list := list + [wrapped.value];
      }
    }
    assert input - {} == input;
  }

  lemma CollectStep(ms: multiset<Head>, rest: Queues, input: Queues, todo: set<Address>,
                    from: Address, baseFee: Option<nat>)
    requires from in todo && todo <= input.Keys && input[from] != [] && from in rest && rest[from] == input[from]
    requires forall h :: h in ms ==> h.from != from
    requires Tracks(ms, rest, baseFee, PayableQueues(input - todo, baseFee))
    ensures var next := PayableQueues(input - (todo - {from}), baseFee);
            match NewTxWithMinerFee(input[from][0], from, baseFee)
            case None => Tracks(ms, rest - {from}, baseFee, next)
            case Some(x) => Tracks(ms + multiset{x}, rest[from := input[from][1..]], baseFee, next)
  {
    var before := PayableQueues(input - todo, baseFee);
    PayableQueuesGrow(input, todo, from, baseFee);
    match NewTxWithMinerFee(input[from][0], from, baseFee)
    case None =>
      TracksUntouched(ms, rest, rest - {from}, baseFee, before, from);
    case Some(x) =>
      var rest' := rest[from := input[from][1..]];
      TracksUntouched(ms, rest, rest', baseFee, before, from);
      TracksExtend(ms, x, rest', baseFee, before);
  }

  lemma PayableQueuesGrow(input: Queues, todo: set<Address>, from: Address, baseFee: Option<nat>)
    requires from in todo && todo <= input.Keys && input[from] != []
    ensures from !in PayableQueues(input - todo, baseFee)
    ensures PayableQueues(input - (todo - {from}), baseFee) ==
            if Covers(input[from][0], baseFee)
            then PayableQueues(input - todo, baseFee)[from := [input[from][0]] + Payable(input[from][1..], baseFee)]
            else PayableQueues(input - todo, baseFee)
  {
  }

  // A list of fronts in heap order that holds exactly the queues q.
  ghost predicate Represents(s: seq<Head>, txs: Queues, baseFee: Option<nat>, q: Queues) {
    HeapFrom(s, 0) && Tracks(multiset(s), txs, baseFee, q)
  }

  // A new root and container/heap's Fix at it, on the first n elements, the fronts s that hold the queues q.
  method FixRoot(a: array<Head>, n: nat, y: Head, ghost s: seq<Head>, ghost txs: Queues, ghost baseFee: Option<nat>,
                 ghost q: Queues)
    requires 0 < n <= a.Length && a[..n] == s && Represents(s, txs, baseFee, q)
    requires s[0].from in txs && txs[s[0].from] != []
    requires NewTxWithMinerFee(txs[s[0].from][0], s[0].from, baseFee) == Some(y)
    modifies a
    ensures Represents(a[..n], txs[s[0].from := txs[s[0].from][1..]], baseFee, DropFirst(q, s[0].from))
  {
    ReplaceRoot(s, y, txs, baseFee, q);
    a[0] := y;
    assert a[..n] == s[0 := y];
    Down(a, 0, n);
  }

  // PopRoot, leaving n of the n + 1 fronts s that hold the queues q.
  method PopFront(a: array<Head>, n: nat, ghost s: seq<Head>, ghost txs: Queues, ghost baseFee: Option<nat>,
                  ghost q: Queues)
    requires n < a.Length && a[..n+1] == s && Represents(s, txs, baseFee, q)
    modifies a
    ensures Represents(a[..n], txs, baseFee, q - {s[0].from})
  {
    RemoveRoot(s, txs, baseFee, q);
    PopRoot(a, n + 1);
  }

  class TransactionsByPriceAndNonce {
    var txs: Queues
    var heads: array<Head>
    var len: nat
    const baseFee: Option<nat>
    ghost var queues: Queues

    ghost predicate Valid()
      reads this, heads
    {
      len <= heads.Length && Represents(heads[..len], txs, baseFee, queues)
    }

    constructor (input: Queues, fee: Option<nat>)
      requires forall a :: a in input ==> input[a] != []
      ensures Valid() && fresh(heads)
      ensures baseFee == fee && queues == PayableQueues(input, fee)
    {
      var list, rest := CollectHeads(input, fee);
      var buffer := NewHeap(list);
      txs, heads, len, baseFee := rest, buffer, |list|, fee;
      queues := PayableQueues(input, fee);
    }

    method Peek() returns (r: Option<Head>)
      requires Valid()
      ensures r.None? <==> queues == map[]
      ensures r.Some? ==> IsBest(queues, r.value.from, baseFee)
      ensures r.Some? ==> r.value.tx == queues[r.value.from][0] && r.value.fees == Tip(r.value.tx, baseFee)
      ensures r.Some? ==> forall a :: a in queues && queues[a] != [] ==>
                var tip := Tip(queues[a][0], baseFee);
                tip < r.value.fees || (tip == r.value.fees && r.value.tx.time <= queues[a][0].time)
      ensures r == if len == 0 then None else Some(heads[0])
    {
      FrontIsBest(heads[..len], txs, baseFee, queues);
      r := if len == 0 then None else Some(heads[0]);
    }

    // The account's next transaction takes its front's place at the root and sinks.
    method ReplaceTop(y: Head)
      requires Valid() && len > 0
      requires heads[0].from in txs && txs[heads[0].from] != []
      requires NewTxWithMinerFee(txs[heads[0].from][0], heads[0].from, baseFee) == Some(y)
      modifies this, heads
      ensures Valid() && heads == old(heads)
      ensures queues == DropFirst(old(queues), old(heads[0].from))
    {
      var acc := heads[0].from;
      ghost var s, before, q := heads[..len], txs, queues;
      txs, queues := txs[acc := txs[acc][1..]], DropFirst(queues, acc);
      FixRoot(heads, len, y, s, before, baseFee, q);
    }

    method Shift()
      requires Valid() && len > 0
      modifies this, heads
      ensures Valid() && heads == old(heads)
      ensures queues == DropFirst(old(queues), old(heads[0].from))
    {
      var acc := heads[0].from;
      if acc in txs && |txs[acc]| > 0 {
        var wrapped := NewTxWithMinerFee(txs[acc][0], acc, baseFee);
        if wrapped.Some? {
          ReplaceTop(wrapped.value);
          return;
        }
      }
      LastOfAccount(heads[..len], txs, baseFee, queues);
      Pop();
    }

    method Pop()
      requires Valid() && len > 0
      modifies this, heads
      ensures Valid() && heads == old(heads)
      ensures queues == old(queues) - {old(heads[0].from)}
    {
      ghost var s, q := heads[..len], queues;
      queues, len := queues - {heads[0].from}, len - 1;
      PopFront(heads, len, s, txs, baseFee, q);
    }

    // The consumer's loop: peek, use, shift, until the set is empty.
    method Drain() returns (out: seq<Emission>)
      requires Valid()
      modifies this, heads
      ensures Valid() && queues == map[]
      ensures IsRun(old(queues), out, baseFee)
      ensures forall a :: OfAccount(out, a) == QueueOf(old(queues), a)
      ensures |out| == |Slots(old(queues))|
    {
      out := [];
      var next := Peek();
      while next.Some?
        invariant Valid() && heads == old(heads)
        invariant IsRun(old(queues), out, baseFee) && queues == After(old(queues), out)
        invariant next == if len == 0 then None else Some(heads[0])
        invariant next.Some? ==> IsRunStep(queues, Emission(next.value.from, next.value.tx), baseFee)
        invariant next.None? <==> queues == map[]
        decreases Slots(queues)
      {
        ghost var before := out;
        var e := Emission(next.value.from, next.value.tx);
        DropFirstRemovesOneSlot(queues, e.from);
        Shift();
        out := out + [e];
        RunExtend(old(queues), before, e, baseFee);
        next := Peek();
      }
      CompleteRunEmitsEachQueueOnce(old(queues), out, baseFee);
      RunLength(old(queues), out, baseFee);
    }
  }

  lemma RunExtend(q: Queues, out: seq<Emission>, e: Emission, baseFee: Option<nat>)
    requires IsRun(q, out, baseFee) && IsRunStep(After(q, out), e, baseFee)
    ensures IsRun(q, out + [e], baseFee) && After(q, out + [e]) == DropFirst(After(q, out), e.from)
  {
    assert (out + [e])[..|out|] == out;
  }

  lemma FrontIsBest(s: seq<Head>, txs: Queues, baseFee: Option<nat>, q: Queues)
    requires Represents(s, txs, baseFee, q)
    ensures s == [] <==> q == map[]
    ensures s != [] ==> IsRunStep(q, Emission(s[0].from, s[0].tx), baseFee) && s[0].fees == Tip(s[0].tx, baseFee)
  {
    if s != [] {
      assert s[0] in multiset(s) && TracksHead(multiset(s), s[0], txs, baseFee, q);
      forall b | b in q && q[b] != [] ensures !Beats(q[b][0], s[0].tx, baseFee) {
        RootBeatsFront(s, txs, baseFee, q, b);
      }
    } else {
      assert forall a :: a in q ==> HasFront(multiset(s), a);
      assert q.Keys == {};
    }
  }

  lemma RootBeatsFront(s: seq<Head>, txs: Queues, baseFee: Option<nat>, q: Queues, b: Address)
    requires Represents(s, txs, baseFee, q) && s != [] && b in q && q[b] != []
    ensures !Beats(q[b][0], s[0].tx, baseFee)
  {
    assert HasFront(multiset(s), b);
    var h :| h in multiset(s) && h.from == b;
    assert s[0] in multiset(s) && TracksHead(multiset(s), s[0], txs, baseFee, q);
    assert TracksHead(multiset(s), h, txs, baseFee, q);
    var j :| 0 <= j < |s| && s[j] == h;
    RootIsBest(s, j);
  }

  lemma LastOfAccount(s: seq<Head>, txs: Queues, baseFee: Option<nat>, q: Queues)
    requires Represents(s, txs, baseFee, q) && s != []
    requires Payable(QueueOf(txs, s[0].from), baseFee) == []
    ensures DropFirst(q, s[0].from) == q - {s[0].from}
  {
    assert s[0] in multiset(s) && TracksHead(multiset(s), s[0], txs, baseFee, q);
  }

  lemma ReplaceRoot(s: seq<Head>, y: Head, txs: Queues, baseFee: Option<nat>, q: Queues)
    requires Represents(s, txs, baseFee, q) && s != []
    requires s[0].from in txs && txs[s[0].from] != []
    requires NewTxWithMinerFee(txs[s[0].from][0], s[0].from, baseFee) == Some(y)
    ensures Represents(Sink(s[0 := y], 0), txs[s[0].from := txs[s[0].from][1..]], baseFee, DropFirst(q, s[0].from))
  {
    ReplacedRootFacts(s, y);
    TracksReplace(multiset(s), s[0], y, txs, baseFee, q);
  }

  lemma RemoveRoot(s: seq<Head>, txs: Queues, baseFee: Option<nat>, q: Queues)
    requires Represents(s, txs, baseFee, q) && s != []
    ensures Represents(WithoutRoot(s), txs, baseFee, q - {s[0].from})
  {
    WithoutRootFacts(s);
    TracksRemove(multiset(s), s[0], txs, baseFee, q);
  }

  // Leftover lists of accounts without a heap entry do not matter.
  lemma TracksUntouched(ms: multiset<Head>, txs: Queues, txs': Queues, baseFee: Option<nat>,
                        q: Queues, a: Address)
    requires Tracks(ms, txs, baseFee, q)
    requires forall h :: h in ms ==> h.from != a
    requires forall b :: b != a ==> QueueOf(txs, b) == QueueOf(txs', b)
    ensures Tracks(ms, txs', baseFee, q)
  {
    forall h | h in ms ensures TracksHead(ms, h, txs', baseFee, q) {
      assert TracksHead(ms, h, txs, baseFee, q);
    }
  }

  lemma TracksExtend(ms: multiset<Head>, x: Head, txs: Queues, baseFee: Option<nat>, q: Queues)
    requires Tracks(ms, txs, baseFee, q) && x.from !in q
    requires forall h :: h in ms ==> h.from != x.from
    requires NewTxWithMinerFee(x.tx, x.from, baseFee) == Some(x)
    ensures Tracks(ms + multiset{x}, txs, baseFee, q[x.from := [x.tx] + Payable(QueueOf(txs, x.from), baseFee)])
  {
    var ms', q' := ms + multiset{x}, q[x.from := [x.tx] + Payable(QueueOf(txs, x.from), baseFee)];
    forall h | h in ms' ensures TracksHead(ms', h, txs, baseFee, q') {
      if h != x {
        assert h in ms && TracksHead(ms, h, txs, baseFee, q);
      } else {
        assert x !in ms;
      }
    }
    forall a | a in q' ensures HasFront(ms', a) {
      FrontStays(ms, x, a);
    }
  }

  lemma FrontStays(ms: multiset<Head>, x: Head, a: Address)
    requires a == x.from || HasFront(ms, a)
    ensures HasFront(ms + multiset{x}, a)
  {
    if a == x.from {
      assert x in ms + multiset{x};
    } else {
      var h :| h in ms && h.from == a;
      assert h in ms + multiset{x};
    }
  }

  // An account's front is the first of its queue, so it has only one.
  lemma OneFrontPerAccount(ms: multiset<Head>, x: Head, txs: Queues, baseFee: Option<nat>, q: Queues)
    requires Tracks(ms, txs, baseFee, q) && x in ms
    ensures forall h :: h in ms - multiset{x} ==> h.from != x.from
  {
    assert TracksHead(ms, x, txs, baseFee, q) && q[x.from][0] == x.tx;
    forall h | h in ms - multiset{x} ensures h.from != x.from {
      assert h in ms && TracksHead(ms, h, txs, baseFee, q) && q[h.from][0] == h.tx;
    }
  }

  lemma TracksRemove(ms: multiset<Head>, x: Head, txs: Queues, baseFee: Option<nat>, q: Queues)
    requires Tracks(ms, txs, baseFee, q) && x in ms
    ensures Tracks(ms - multiset{x}, txs, baseFee, q - {x.from})
  {
    var ms' := ms - multiset{x};
    OneFrontPerAccount(ms, x, txs, baseFee, q);
    forall h | h in ms' ensures TracksHead(ms', h, txs, baseFee, q - {x.from}) {
      assert h in ms && TracksHead(ms, h, txs, baseFee, q);
    }
    forall a | a in q - {x.from} ensures HasFront(ms', a) {
      assert HasFront(ms, a);
      var h :| h in ms && h.from == a;
      assert h in ms';
    }
  }

  lemma DropFirstLeavesTheRest(ms: multiset<Head>, x: Head, txs: Queues, baseFee: Option<nat>,
                               q: Queues)
    requires TracksHead(ms, x, txs, baseFee, q)
    ensures var rest := Payable(QueueOf(txs, x.from), baseFee);
            DropFirst(q, x.from) == if rest == [] then q - {x.from} else (q - {x.from})[x.from := rest]
  {
    var rest := Payable(QueueOf(txs, x.from), baseFee);
    assert q[x.from][1..] == rest;
    if rest != [] {
      assert q[x.from := rest] == (q - {x.from})[x.from := rest];
    }
  }

  lemma TracksReplace(ms: multiset<Head>, x: Head, y: Head, txs: Queues, baseFee: Option<nat>,
                      q: Queues)
    requires Tracks(ms, txs, baseFee, q) && x in ms && y.from == x.from && x.from in txs && txs[x.from] != []
    requires NewTxWithMinerFee(txs[x.from][0], x.from, baseFee) == Some(y)
    ensures Tracks(ms - multiset{x} + multiset{y}, txs[x.from := txs[x.from][1..]], baseFee, DropFirst(q, x.from))
  {
    var a, rest := x.from, ms - multiset{x};
    var txs' := txs[a := txs[a][1..]];
    assert TracksHead(ms, x, txs, baseFee, q);
    DropFirstLeavesTheRest(ms, x, txs, baseFee, q);
    OneFrontPerAccount(ms, x, txs, baseFee, q);
    TracksRemove(ms, x, txs, baseFee, q);
    TracksUntouched(rest, txs, txs', baseFee, q - {a}, a);
    TracksExtend(rest, y, txs', baseFee, q - {a});
  }
}
