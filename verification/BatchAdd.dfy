/** TxPool.Add of mempool/txpool/txpool.go: a batch is split over the subpools, each subpool handles its
    share in one call, and the errors are pieced back into the order of the batch. */
module BatchAdd {

  datatype Tx = Tx(id: nat, txType: nat)

  datatype Error = NoError | Unsupported(txType: nat) | Rejected(code: nat)

  // A subpool as Add sees it. Filter decides by the transaction alone.
  datatype Subpool = Subpool(filter: Tx -> bool, add: seq<Tx> -> seq<Error>)

  // What the subpool interface promises: one error per transaction handed in.
  ghost predicate Conforms(pools: seq<Subpool>) {
    forall j, batch :: 0 <= j < |pools| ==> |pools[j].add(batch)| == |batch|
  }

  // The first subpool whose filter accepts tx, or -1.
  function FirstPool(pools: seq<Subpool>, tx: Tx): int {
    FirstPoolFrom(pools, tx, 0)
  }

  function FirstPoolFrom(pools: seq<Subpool>, tx: Tx, j: nat): (k: int)
    ensures -1 <= k < |pools|
    ensures k >= 0 ==> j <= k && pools[k].filter(tx) && forall i :: j <= i < k ==> !pools[i].filter(tx)
    ensures k < 0 ==> forall i :: j <= i < |pools| ==> !pools[i].filter(tx)
    decreases |pools| - j
  {
    if j >= |pools| then -1 else if pools[j].filter(tx) then j else FirstPoolFrom(pools, tx, j + 1)
  }

  // Subpool j is the first to accept tx; -1 stands for none.
  ghost predicate Takes(pools: seq<Subpool>, tx: Tx, j: int) {
    if j == -1 then forall i :: 0 <= i < |pools| ==> !pools[i].filter(tx)
    else 0 <= j < |pools| && pools[j].filter(tx) && forall i :: 0 <= i < j ==> !pools[i].filter(tx)
  }

  lemma FirstPoolIs(pools: seq<Subpool>, tx: Tx, j: int)
    ensures FirstPool(pools, tx) == j <==> Takes(pools, tx, j)
  {
  }

  // The transactions that belong to subpool j, in batch order.
  function Share(pools: seq<Subpool>, txs: seq<Tx>, j: int): seq<Tx> {
    if txs == [] then []
    else
      var last := txs[|txs|-1];
      Share(pools, txs[..|txs|-1], j) + if FirstPool(pools, last) == j then [last] else []
  }

  lemma {:induction false} SharePrefix(pools: seq<Subpool>, txs: seq<Tx>, i: nat, j: int)
    requires i <= |txs|
    ensures Share(pools, txs[..i], j) <= Share(pools, txs, j)
    decreases |txs| - i
  {
    if i == |txs| {
      assert txs[..i] == txs;
    } else {
      assert txs[..i+1][..i] == txs[..i];
      SharePrefix(pools, txs, i + 1, j);
    }
  }

  lemma ShareIsLongerAfter(pools: seq<Subpool>, txs: seq<Tx>, i: nat)
    requires i < |txs|
    ensures var j := FirstPool(pools, txs[i]);
            var rank := |Share(pools, txs[..i], j)|;
            rank < |Share(pools, txs, j)| && Share(pools, txs, j)[rank] == txs[i]
  {
    var j := FirstPool(pools, txs[i]);
    assert txs[..i+1][..i] == txs[..i];
    SharePrefix(pools, txs, i + 1, j);
  }

  // The error the batch must report for its i-th transaction: the one its own subpool returned for it.
  ghost function ErrorFor(pools: seq<Subpool>, txs: seq<Tx>, i: nat): Error
    requires Conforms(pools) && i < |txs|
  {
    var j := FirstPool(pools, txs[i]);
    if j == -1 then Unsupported(txs[i].txType)
    else
      ShareIsLongerAfter(pools, txs, i);
      pools[j].add(Share(pools, txs, j))[|Share(pools, txs[..i], j)|]
  }

  // The positions in the batch of the transactions that subpool j takes.
  ghost function Positions(pools: seq<Subpool>, txs: seq<Tx>, j: int): seq<nat> {
    if txs == [] then []
    else
      var n := |txs| - 1;
      Positions(pools, txs[..n], j) + if Takes(pools, txs[n], j) then [n] else []
  }

  lemma {:induction false} PositionsAre(pools: seq<Subpool>, txs: seq<Tx>, j: int)
    ensures var ps := Positions(pools, txs, j);
            && (forall k: nat :: k in ps <==> k < |txs| && Takes(pools, txs[k], j))
            && (forall a, b :: 0 <= a < b < |ps| ==> ps[a] < ps[b])
  {
    if txs != [] {
      var n := |txs| - 1;
      PositionsAre(pools, txs[..n], j);
      var init := Positions(pools, txs[..n], j);
      forall a | 0 <= a < |init| ensures init[a] < n {
        assert init[a] in init;
      }
    }
  }

  // A share is the batch at its positions.
  lemma {:induction false} ShareIsAtPositions(pools: seq<Subpool>, txs: seq<Tx>, j: int)
    ensures var ps, share := Positions(pools, txs, j), Share(pools, txs, j);
            |share| == |ps| && forall r :: 0 <= r < |ps| ==> ps[r] < |txs| && share[r] == txs[ps[r]]
  {
    if txs != [] {
      var n := |txs| - 1;
      ShareIsAtPositions(pools, txs[..n], j);
      FirstPoolIs(pools, txs[n], j);
    }
  }

  lemma {:induction false} RankIsPosition(pools: seq<Subpool>, txs: seq<Tx>, i: nat, j: int)
    requires i < |txs| && Takes(pools, txs[i], j)
    ensures var rank := |Positions(pools, txs[..i], j)|;
            rank < |Positions(pools, txs, j)| && Positions(pools, txs, j)[rank] == i
  {
    var n := |txs| - 1;
    if i < n {
      assert txs[..n][..i] == txs[..i];
      RankIsPosition(pools, txs[..n], i, j);
    }
  }

  // The error for the i-th transaction, without reference to how the batch is split: unsupported when no filter
  // accepts it; otherwise the first subpool that does is handed exactly the transactions it takes, in batch order,
  // and the error is the one it returns at the i-th transaction's place.
  lemma ErrorForIs(pools: seq<Subpool>, txs: seq<Tx>, i: nat, j: int)
    requires Conforms(pools) && i < |txs| && Takes(pools, txs[i], j)
    ensures j == -1 ==> ErrorFor(pools, txs, i) == Unsupported(txs[i].txType)
    ensures j >= 0 ==> exists rank: nat, batch ::
              && IsShareOf(pools, txs, j, batch) && rank < |batch| && Positions(pools, txs, j)[rank] == i
              && ErrorFor(pools, txs, i) == pools[j].add(batch)[rank]
  {
    FirstPoolIs(pools, txs[i], j);
    if j >= 0 {
      RankIsPosition(pools, txs, i, j);
      ShareIsAtPositions(pools, txs[..i], j);
      ShareIsAtPositions(pools, txs, j);
      PositionsAre(pools, txs, j);
      assert IsShareOf(pools, txs, j, Share(pools, txs, j));
    }
  }

  ghost predicate IsShareOf(pools: seq<Subpool>, txs: seq<Tx>, j: int, batch: seq<Tx>) {
    var ps := Positions(pools, txs, j);
    |batch| == |ps| && forall r :: 0 <= r < |ps| ==> ps[r] < |txs| && batch[r] == txs[ps[r]]
  }

  method FindPool(pools: seq<Subpool>, tx: Tx) returns (split: int)
    ensures Takes(pools, tx, split)
  {
    split := -1;
    var j := 0;
    while j < |pools|
      invariant 0 <= j <= |pools| && split == -1
      invariant forall i :: 0 <= i < j ==> !pools[i].filter(tx)
    {
      if pools[j].filter(tx) {
        split := j;
        break;
      }
      j := j + 1;
    }
  }

  method SplitBatch(pools: seq<Subpool>, txs: seq<Tx>) returns (txsets: array<seq<Tx>>, splits: array<int>)
    ensures fresh(txsets) && fresh(splits) && txsets.Length == |pools| && splits.Length == |txs|
    ensures forall j :: 0 <= j < |pools| ==> txsets[j] == Share(pools, txs, j)
    ensures forall i :: 0 <= i < |txs| ==> splits[i] == FirstPool(pools, txs[i])
  {
    txsets := new seq<Tx>[|pools|](j => []);
    splits := new int[|txs|];
    for i := 0 to |txs|
      invariant AreShares(pools, txs[..i], txsets[..])
      invariant forall k :: 0 <= k < i ==> splits[k] == FirstPool(pools, txs[k])
    {
      var split := FindPool(pools, txs[i]);
      FirstPoolIs(pools, txs[i], split);
      splits[i] := split;
      assert txs[..i+1] == txs[..i] + [txs[i]];
      Assign(pools, txs[..i], txs[i], split, txsets);
    }
    assert txs[..|txs|] == txs;
  }

  ghost predicate AreShares(pools: seq<Subpool>, txs: seq<Tx>, txsets: seq<seq<Tx>>) {
    |txsets| == |pools| && forall j :: 0 <= j < |pools| ==> txsets[j] == Share(pools, txs, j)
  }

  // One transaction more goes to its subpool, if it has one.
  method Assign(pools: seq<Subpool>, ghost before: seq<Tx>, tx: Tx, split: int, txsets: array<seq<Tx>>)
    requires split == FirstPool(pools, tx) && AreShares(pools, before, txsets[..])
    modifies txsets
    ensures AreShares(pools, before + [tx], txsets[..])
  {
    assert (before + [tx])[..|before|] == before;
    if split != -1 {
      txsets[split] := txsets[split] + [tx];
    }
  }

  method AddShares(pools: seq<Subpool>, txs: seq<Tx>, txsets: array<seq<Tx>>) returns (errsets: array<seq<Error>>)
    requires txsets.Length == |pools| && forall j :: 0 <= j < |pools| ==> txsets[j] == Share(pools, txs, j)
    ensures fresh(errsets) && errsets.Length == |pools|
    ensures forall j :: 0 <= j < |pools| ==> errsets[j] == pools[j].add(Share(pools, txs, j))
  {
    errsets := new seq<Error>[|pools|](j => []);
    for j := 0 to |pools|
      invariant forall k :: 0 <= k < j ==> errsets[k] == pools[k].add(Share(pools, txs, k))
    {
      errsets[j] := pools[j].add(txsets[j]);
    }
  }

  // The errors of subpool j that are still to be handed out before the i-th transaction.
  ghost predicate Unread(pools: seq<Subpool>, txs: seq<Tx>, i: nat, j: nat, errs: seq<Error>)
    requires i <= |txs| && j < |pools|
  {
    var all, read := pools[j].add(Share(pools, txs, j)), |Share(pools, txs[..i], j)|;
    read <= |all| && errs == all[read..]
  }

  lemma ReadOne(pools: seq<Subpool>, txs: seq<Tx>, i: nat, j: nat, errs: seq<Error>)
    requires Conforms(pools) && i < |txs| && j < |pools| && Unread(pools, txs, i, j, errs)
    ensures if FirstPool(pools, txs[i]) == j
            then errs != [] && errs[0] == ErrorFor(pools, txs, i) && Unread(pools, txs, i + 1, j, errs[1..])
            else Unread(pools, txs, i + 1, j, errs)
  {
    assert txs[..i+1][..i] == txs[..i];
    if FirstPool(pools, txs[i]) == j {
      ShareIsLongerAfter(pools, txs, i);
    }
  }

  method Add(pools: seq<Subpool>, txs: seq<Tx>) returns (errs: array<Error>)
    requires Conforms(pools)
    ensures errs.Length == |txs|
    ensures forall i :: 0 <= i < |txs| ==> errs[i] == ErrorFor(pools, txs, i)
  {
    var txsets, splits := SplitBatch(pools, txs);
    var errsets := AddShares(pools, txs, txsets);
    NothingRead(pools, txs, errsets[..]);
    errs := JoinErrors(pools, txs, splits[..], errsets);
  }

  // Hands every transaction the next error of its subpool.
  method JoinErrors(pools: seq<Subpool>, txs: seq<Tx>, splits: seq<int>, errsets: array<seq<Error>>)
    returns (errs: array<Error>)
    requires Conforms(pools) && IsSplit(pools, txs, splits) && AllUnread(pools, txs, 0, errsets[..])
    modifies errsets
    ensures fresh(errs) && Joined(pools, txs, |txs|, errs[..])
  {
    errs := new Error[|txs|](i => NoError);
    for i := 0 to |txs|
      invariant AllUnread(pools, txs, i, errsets[..]) && Joined(pools, txs, i, errs[..])
    {
      JoinOne(pools, txs, i, splits[i], errsets, errs);
    }
  }

  ghost predicate IsSplit(pools: seq<Subpool>, txs: seq<Tx>, splits: seq<int>) {
    |splits| == |txs| && forall k :: 0 <= k < |txs| ==> splits[k] == FirstPool(pools, txs[k])
  }

  ghost predicate Joined(pools: seq<Subpool>, txs: seq<Tx>, i: nat, errs: seq<Error>)
    requires Conforms(pools) && i <= |txs|
  {
    |errs| == |txs| && forall k :: 0 <= k < i ==> errs[k] == ErrorFor(pools, txs, k)
  }

  // One round: the next error of the i-th transaction's subpool.
  method JoinOne(pools: seq<Subpool>, txs: seq<Tx>, i: nat, split: int, errsets: array<seq<Error>>, errs: array<Error>)
    requires Conforms(pools) && i < |txs| && split == FirstPool(pools, txs[i])
    requires AllUnread(pools, txs, i, errsets[..]) && Joined(pools, txs, i, errs[..])
    modifies errsets, errs
    ensures AllUnread(pools, txs, i + 1, errsets[..]) && Joined(pools, txs, i + 1, errs[..])
  {
    ghost var left, joined := errsets[..], errs[..];
    ReadNext(pools, txs, i, left);
    JoinedNext(pools, txs, i, joined);
    if split == -1 {
      errs[i] := Unsupported(txs[i].txType);
    } else {
      errs[i] := errsets[split][0];
      errsets[split] := errsets[split][1..];
      assert errsets[..] == left[split := left[split][1..]];
    }
    assert errs[..] == joined[i := ErrorFor(pools, txs, i)];
  }

  lemma JoinedNext(pools: seq<Subpool>, txs: seq<Tx>, i: nat, errs: seq<Error>)
    requires Conforms(pools) && i < |txs| && Joined(pools, txs, i, errs)
    ensures Joined(pools, txs, i + 1, errs[i := ErrorFor(pools, txs, i)])
  {
  }

  lemma NothingRead(pools: seq<Subpool>, txs: seq<Tx>, errsets: seq<seq<Error>>)
    requires |errsets| == |pools| && forall j :: 0 <= j < |pools| ==> errsets[j] == pools[j].add(Share(pools, txs, j))
    ensures AllUnread(pools, txs, 0, errsets)
  {
    assert txs[..0] == [];
  }

  ghost predicate AllUnread(pools: seq<Subpool>, txs: seq<Tx>, i: nat, errsets: seq<seq<Error>>)
    requires i <= |txs|
  {
    |errsets| == |pools| && forall j :: 0 <= j < |pools| ==> Unread(pools, txs, i, j, errsets[j])
  }

  lemma ReadNext(pools: seq<Subpool>, txs: seq<Tx>, i: nat, errsets: seq<seq<Error>>)
    requires Conforms(pools) && i < |txs| && AllUnread(pools, txs, i, errsets)
    ensures var split := FirstPool(pools, txs[i]);
            if split == -1 then AllUnread(pools, txs, i + 1, errsets)
            else
              && errsets[split] != [] && errsets[split][0] == ErrorFor(pools, txs, i)
              && AllUnread(pools, txs, i + 1, errsets[split := errsets[split][1..]])
  {
    forall j | 0 <= j < |pools| {
      ReadOne(pools, txs, i, j, errsets[j]);
    }
  }

  // ---------- Subpools that take their share one transaction after another ----------

  datatype Pool<!S> = Pool(filter: Tx -> bool, state: S, addOne: (S, Tx) -> (S, Error))

  function StateAfter<S>(p: Pool<S>, batch: seq<Tx>): S {
    if batch == [] then p.state else p.addOne(StateAfter(p, batch[..|batch|-1]), batch[|batch|-1]).0
  }

  function ErrorsOf<S>(p: Pool<S>, batch: seq<Tx>): (errs: seq<Error>)
    ensures |errs| == |batch|
  {
    if batch == [] then []
    else
      var init, last := batch[..|batch|-1], batch[|batch|-1];
      ErrorsOf(p, init) + [p.addOne(StateAfter(p, init), last).1]
  }

  ghost function AsSubpools<S>(ps: seq<Pool<S>>): (r: seq<Subpool>)
    ensures |r| == |ps| && Conforms(r)
  {
    seq(|ps|, j requires 0 <= j < |ps| => Subpool(ps[j].filter, batch => ErrorsOf(ps[j], batch)))
  }

  // The pool that routes and adds single transactions: states of all subpools after a list, and its errors.
  ghost function OneByOneState<S>(ps: seq<Pool<S>>, txs: seq<Tx>, j: nat): S
    requires j < |ps|
  {
    if txs == [] then ps[j].state
    else
      var before, last := OneByOneState(ps, txs[..|txs|-1], j), txs[|txs|-1];
      if FirstPool(AsSubpools(ps), last) == j then ps[j].addOne(before, last).0 else before
  }

  ghost function OneByOneError<S>(ps: seq<Pool<S>>, txs: seq<Tx>, i: nat): Error
    requires i < |txs|
  {
    var j := FirstPool(AsSubpools(ps), txs[i]);
    if j == -1 then Unsupported(txs[i].txType) else ps[j].addOne(OneByOneState(ps, txs[..i], j), txs[i]).1
  }

  lemma {:induction false} ShareReachesSameState<S>(ps: seq<Pool<S>>, txs: seq<Tx>, j: nat)
    requires j < |ps|
    ensures OneByOneState(ps, txs, j) == StateAfter(ps[j], Share(AsSubpools(ps), txs, j))
  {
    if txs != [] {
      ShareReachesSameState(ps, txs[..|txs|-1], j);
      var share := Share(AsSubpools(ps), txs, j);
      if FirstPool(AsSubpools(ps), txs[|txs|-1]) == j {
        assert share[..|share|-1] == Share(AsSubpools(ps), txs[..|txs|-1], j);
      } else {
        assert share == Share(AsSubpools(ps), txs[..|txs|-1], j);
      }
    }
  }

  lemma {:induction false} ErrorsOfPrefix<S>(p: Pool<S>, batch: seq<Tx>, k: nat)
    requires k < |batch|
    ensures ErrorsOf(p, batch)[k] == p.addOne(StateAfter(p, batch[..k]), batch[k]).1
  {
    var init := batch[..|batch|-1];
    if k < |init| {
      ErrorsOfPrefix(p, init, k);
      assert init[..k] == batch[..k];
    }
  }

  lemma SameErrorInShare<S>(ps: seq<Pool<S>>, txs: seq<Tx>, i: nat)
    requires i < |txs| && FirstPool(AsSubpools(ps), txs[i]) != -1
    ensures ErrorFor(AsSubpools(ps), txs, i) == OneByOneError(ps, txs, i)
  {
    var pools := AsSubpools(ps);
    var j := FirstPool(pools, txs[i]);
    var share, rank := Share(pools, txs, j), |Share(pools, txs[..i], j)|;
    assert rank < |share| && share[rank] == txs[i] && share[..rank] == Share(pools, txs[..i], j) by {
      ShareIsLongerAfter(pools, txs, i);
      SharePrefix(pools, txs, i, j);
    }
    ErrorsOfPrefix(ps[j], share, rank);
    ShareReachesSameState(ps, txs[..i], j);
    assert pools[j].add(share) == ErrorsOf(ps[j], share);
  }

  // Splitting a batch changes nothing: errors and final subpool states are those of adding the
  // transactions one at a time, in batch order, through the whole pool.
  lemma BatchEqualsOneByOne<S>(ps: seq<Pool<S>>, txs: seq<Tx>)
    ensures forall i :: 0 <= i < |txs| ==> ErrorFor(AsSubpools(ps), txs, i) == OneByOneError(ps, txs, i)
    ensures forall j :: 0 <= j < |ps| ==> OneByOneState(ps, txs, j) == StateAfter(ps[j], Share(AsSubpools(ps), txs, j))
  {
    forall i | 0 <= i < |txs| ensures ErrorFor(AsSubpools(ps), txs, i) == OneByOneError(ps, txs, i) {
      if FirstPool(AsSubpools(ps), txs[i]) != -1 {
        SameErrorInShare(ps, txs, i);
      }
    }
    forall j | 0 <= j < |ps|
      ensures OneByOneState(ps, txs, j) == StateAfter(ps[j], Share(AsSubpools(ps), txs, j))
    {
      ShareReachesSameState(ps, txs, j);
    }
  }
}
