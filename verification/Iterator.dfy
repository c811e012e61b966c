/** The block-building iterator of mempool/iterator.go: a two-way merge of the EVM price heap and the
    Cosmos stream, driven by repeated calls of Tx and Next. */
module MempoolIterator {
  import opened Arithmetic
  import opened Common
  import opened Ordering

  const MAX_UINT256: nat := 0xFFFF_FFFF_FFFF_FFFF_FFFF_FFFF_FFFF_FFFF_FFFF_FFFF_FFFF_FFFF_FFFF_FFFF_FFFF_FFFF

  datatype Coin = Coin(denom: string, amount: nat)

  datatype CosmosTx = CosmosTx(id: nat, isFeeTx: bool, fees: seq<Coin>, gas: nat)

  datatype SdkTx = FromEvm(evmTx: LazyTx) | FromCosmos(cosmosTx: CosmosTx)

  // What one iteration runs under. heapFee is the base fee the EVM heap was built with, chainFee the
  // one the current block header shows.
  datatype Params = Params(bondDenom: string, heapFee: Option<nat>, chainFee: Option<nat>, converts: LazyTx -> bool)

  // ---------- Reference: turns of the merge ----------

  // The fee counted for a Cosmos transaction is its last coin in the bond denomination.
  function BondAmount(fees: seq<Coin>, denom: string): nat {
    if fees == [] then 0
    else if fees[|fees|-1].denom == denom then fees[|fees|-1].amount
    else BondAmount(fees[..|fees|-1], denom)
  }

  ghost predicate PositiveGas(tx: CosmosTx) {
    tx.isFeeTx ==> tx.gas > 0
  }

  // The effective tip of a Cosmos transaction: gas price over base fee, floored at zero.
  function CosmosTip(tx: CosmosTx, p: Params): nat
    requires PositiveGas(tx)
  {
    if !tx.isFeeTx then 0
    else
      var price := BondAmount(tx.fees, p.bondDenom) / tx.gas;
      if price > MAX_UINT256 then 0
      else if p.chainFee.None? then price
      else if price < p.chainFee.value then 0
      else price - p.chainFee.value
  }

  // The whole price per unit of gas that an amount pays.
  ghost predicate IsPrice(price: nat, amount: nat, gas: nat) {
    price * gas <= amount < (price + 1) * gas
  }

  // A price counts for what it leaves over the base fee; one beyond 256 bits counts for nothing.
  function OverBaseFee(price: nat, baseFee: Option<nat>): nat {
    if price > MAX_UINT256 || (baseFee.Some? && price < baseFee.value) then 0
    else price - if baseFee.Some? then baseFee.value else 0
  }

  lemma {:induction false} LastBondCoinCounts(fees: seq<Coin>, denom: string, i: nat)
    requires i < |fees| && fees[i].denom == denom && forall k :: i < k < |fees| ==> fees[k].denom != denom
    ensures BondAmount(fees, denom) == fees[i].amount
  {
    if i < |fees| - 1 {
      LastBondCoinCounts(fees[..|fees|-1], denom, i);
    }
  }

  lemma {:induction false} NoBondCoinCountsZero(fees: seq<Coin>, denom: string)
    requires forall k :: 0 <= k < |fees| ==> fees[k].denom != denom
    ensures BondAmount(fees, denom) == 0
  {
    if fees != [] {
      NoBondCoinCountsZero(fees[..|fees|-1], denom);
    }
  }

  lemma QuotientIsPrice(price: nat, amount: nat, gas: nat)
    requires gas > 0
    ensures IsPrice(price, amount, gas) <==> price == amount / gas
  {
    var q := amount / gas;
    assert q * gas <= amount && amount < q * gas + gas;
    Distribute(q, 1, gas);
    if q < price {
      Monotone(q + 1, price, gas);
    } else if price < q {
      Monotone(price + 1, q, gas);
    }
  }

  // The tip of a fee transaction is the price per gas that its last coin in the bond denomination pays, counted
  // over the base fee.
  lemma CosmosTipIs(tx: CosmosTx, p: Params, i: nat)
    requires tx.isFeeTx && tx.gas > 0 && i < |tx.fees| && tx.fees[i].denom == p.bondDenom
    requires forall k :: i < k < |tx.fees| ==> tx.fees[k].denom != p.bondDenom
    ensures exists price: nat :: IsPrice(price, tx.fees[i].amount, tx.gas)
    ensures forall price: nat :: IsPrice(price, tx.fees[i].amount, tx.gas) ==>
              CosmosTip(tx, p) == OverBaseFee(price, p.chainFee)
  {
    LastBondCoinCounts(tx.fees, p.bondDenom, i);
    QuotientIsPrice(tx.fees[i].amount / tx.gas, tx.fees[i].amount, tx.gas);
    forall price: nat | IsPrice(price, tx.fees[i].amount, tx.gas)
      ensures CosmosTip(tx, p) == OverBaseFee(price, p.chainFee)
    {
      QuotientIsPrice(price, tx.fees[i].amount, tx.gas);
    }
  }

  lemma NoBondFeeNoTip(tx: CosmosTx, p: Params)
    requires PositiveGas(tx)
    requires !tx.isFeeTx || forall k :: 0 <= k < |tx.fees| ==> tx.fees[k].denom != p.bondDenom
    ensures CosmosTip(tx, p) == 0
  {
    if tx.isFeeTx {
      NoBondCoinCountsZero(tx.fees, p.bondDenom);
    }
  }

  datatype Turn = EvmTurn(emission: Emission) | CosmosTurn(tx: CosmosTx)

  // One moment of a merge: what both sides hold, whose turn it is and what Tx shows.
  datatype Moment = Moment(queues: Queues, cosmos: seq<CosmosTx>, turn: Turn, shown: Option<SdkTx>)

  ghost predicate IsTurn(m: Moment, p: Params) {
    && (forall c :: c in m.cosmos ==> PositiveGas(c))
    && match m.turn
       case EvmTurn(e) =>
         && IsRunStep(m.queues, e, p.heapFee)
         && (m.cosmos == [] || CosmosTip(m.cosmos[0], p) <= Tip(e.tx, p.heapFee))
       case CosmosTurn(c) =>
         && m.cosmos != [] && c == m.cosmos[0]
         && forall a :: a in m.queues && m.queues[a] != [] ==> CosmosTip(c, p) > Tip(m.queues[a][0], p.heapFee)
  }

  // The turn's own transaction, or, when an EVM transaction does not convert, whatever the Cosmos side
  // has in front.
  function Shown(cosmos: seq<CosmosTx>, turn: Turn, p: Params): Option<SdkTx> {
    if turn.EvmTurn? && p.converts(turn.emission.tx) then Some(FromEvm(turn.emission.tx))
    else if cosmos == [] then None
    else Some(FromCosmos(cosmos[0]))
  }

  ghost function NextQueues(m: Moment): Queues {
    if m.turn.EvmTurn? then DropFirst(m.queues, m.turn.emission.from) else m.queues
  }

  ghost function NextCosmos(m: Moment): seq<CosmosTx> {
    if m.turn.EvmTurn? || m.cosmos == [] then m.cosmos else m.cosmos[1..]
  }

  ghost function Output(log: seq<Moment>): seq<Option<SdkTx>> {
    seq(|log|, i requires 0 <= i < |log| => log[i].shown)
  }

  // A log of moments that leads from (q, cosmos) to (q', cosmos').
  ghost predicate IsMerge(q: Queues, cosmos: seq<CosmosTx>, log: seq<Moment>, q': Queues, cosmos': seq<CosmosTx>,
                          p: Params)
    decreases |log|
  {
    if log == [] then q' == q && cosmos' == cosmos
    else
      var m := log[|log|-1];
      && IsMerge(q, cosmos, log[..|log|-1], m.queues, m.cosmos, p)
      && IsTurn(m, p) && m.shown == Shown(m.cosmos, m.turn, p)
      && q' == NextQueues(m) && cosmos' == NextCosmos(m)
  }

  ghost function EvmTurns(log: seq<Moment>): seq<Emission> {
    if log == [] then []
    else EvmTurns(log[..|log|-1]) + if log[|log|-1].turn.EvmTurn? then [log[|log|-1].turn.emission] else []
  }

  ghost function CosmosTurns(log: seq<Moment>): seq<CosmosTx> {
    if log == [] then []
    else CosmosTurns(log[..|log|-1]) + if log[|log|-1].turn.CosmosTurn? then [log[|log|-1].turn.tx] else []
  }

  lemma MergeExtend(q: Queues, cosmos: seq<CosmosTx>, log: seq<Moment>, m: Moment, p: Params)
    requires IsMerge(q, cosmos, log, m.queues, m.cosmos, p)
    requires IsTurn(m, p) && m.shown == Shown(m.cosmos, m.turn, p)
    ensures IsMerge(q, cosmos, log + [m], NextQueues(m), NextCosmos(m), p)
    ensures Output(log + [m]) == Output(log) + [m.shown]
    ensures m.turn.EvmTurn? ==> Slots(NextQueues(m)) < Slots(m.queues)
  {
    assert (log + [m])[..|log|] == log;
    if m.turn.EvmTurn? {
      DropFirstRemovesOneSlot(m.queues, m.turn.emission.from);
    }
  }

  // The EVM side's turns are a run of the price heap alone.
  lemma {:induction false} MergeRunsTheHeap(q: Queues, cosmos: seq<CosmosTx>, log: seq<Moment>,
                                            q': Queues, cosmos': seq<CosmosTx>, p: Params)
    requires IsMerge(q, cosmos, log, q', cosmos', p)
    ensures IsRun(q, EvmTurns(log), p.heapFee) && q' == After(q, EvmTurns(log))
    decreases |log|
  {
    if log != [] {
      var init, m := log[..|log|-1], log[|log|-1];
      MergeRunsTheHeap(q, cosmos, init, m.queues, m.cosmos, p);
      if m.turn.EvmTurn? {
        RunExtend(q, EvmTurns(init), m.turn.emission, p.heapFee);
      } else {
        assert EvmTurns(log) == EvmTurns(init);
      }
    }
  }

  // The Cosmos side's turns, followed by what is left, are the Cosmos stream in its own order.
  lemma {:induction false} MergeKeepsCosmosOrder(q: Queues, cosmos: seq<CosmosTx>, log: seq<Moment>,
                                                 q': Queues, cosmos': seq<CosmosTx>, p: Params)
    requires IsMerge(q, cosmos, log, q', cosmos', p)
    ensures CosmosTurns(log) + cosmos' == cosmos
    decreases |log|
  {
    if log != [] {
      var init, m := log[..|log|-1], log[|log|-1];
      MergeKeepsCosmosOrder(q, cosmos, init, m.queues, m.cosmos, p);
      if m.turn.CosmosTurn? {
        assert m.cosmos == [m.turn.tx] + cosmos' && CosmosTurns(log) == CosmosTurns(init) + [m.turn.tx];
        Regroup(CosmosTurns(init), [m.turn.tx], cosmos');
      } else {
        assert CosmosTurns(log) == CosmosTurns(init);
      }
    }
  }

  // ---------- What a consumer sees ----------

  function EvmPart(out: seq<Option<SdkTx>>): seq<LazyTx> {
    if out == [] then []
    else
      var x := out[|out|-1];
      EvmPart(out[..|out|-1]) + if x.Some? && x.value.FromEvm? then [x.value.evmTx] else []
  }

  function CosmosPart(out: seq<Option<SdkTx>>): seq<CosmosTx> {
    if out == [] then []
    else
      var x := out[|out|-1];
      CosmosPart(out[..|out|-1]) + if x.Some? && x.value.FromCosmos? then [x.value.cosmosTx] else []
  }

  ghost function Blanks(out: seq<Option<SdkTx>>): nat {
    if out == [] then 0 else Blanks(out[..|out|-1]) + if out[|out|-1].None? then 1 else 0
  }

  lemma OneMoreShown(init: seq<Moment>, m: Moment)
    ensures CosmosPart(Output(init + [m])) ==
            CosmosPart(Output(init)) +
            if m.shown.Some? && m.shown.value.FromCosmos? then [m.shown.value.cosmosTx] else []
    ensures EvmPart(Output(init + [m])) ==
            EvmPart(Output(init)) + if m.shown.Some? && m.shown.value.FromEvm? then [m.shown.value.evmTx] else []
    ensures Blanks(Output(init + [m])) == Blanks(Output(init)) + if m.shown.None? then 1 else 0
  {
    assert Output(init + [m]) == Output(init) + [m.shown];
  }

  lemma {:induction false} BlanksAreNones(out: seq<Option<SdkTx>>)
    ensures Blanks(out) == 0 <==> None !in out
  {
    if out != [] {
      var init := out[..|out|-1];
      BlanksAreNones(init);
      assert out == init + [out[|out|-1]];
    }
  }

  ghost function Txs(es: seq<Emission>): seq<LazyTx> {
    seq(|es|, i requires 0 <= i < |es| => es[i].tx)
  }

  ghost function Converting(es: seq<Emission>, p: Params): seq<LazyTx> {
    if es == [] then []
    else Converting(es[..|es|-1], p) + if p.converts(es[|es|-1].tx) then [es[|es|-1].tx] else []
  }

  ghost predicate AllConvert(es: seq<Emission>, p: Params) {
    forall i :: 0 <= i < |es| ==> p.converts(es[i].tx)
  }

  lemma OneMoreTaken(init: seq<Moment>, m: Moment, p: Params)
    ensures EvmTurns(init + [m]) == EvmTurns(init) + if m.turn.EvmTurn? then [m.turn.emission] else []
    ensures CosmosTurns(init + [m]) == CosmosTurns(init) + if m.turn.CosmosTurn? then [m.turn.tx] else []
    ensures Converting(EvmTurns(init + [m]), p) == Converting(EvmTurns(init), p) +
            if m.turn.EvmTurn? && p.converts(m.turn.emission.tx) then [m.turn.emission.tx] else []
  {
    assert (init + [m])[..|init|] == init;
    if m.turn.EvmTurn? {
      assert (EvmTurns(init) + [m.turn.emission])[..|EvmTurns(init)|] == EvmTurns(init);
    } else {
      assert EvmTurns(init + [m]) == EvmTurns(init);
    }
  }

  lemma AllConvertSoFar(es: seq<Emission>, es': seq<Emission>, p: Params)
    requires es <= es' && AllConvert(es', p)
    ensures AllConvert(es, p)
  {
    forall i | 0 <= i < |es| ensures p.converts(es[i].tx) {
      assert es[i] == es'[i];
    }
  }

  // The EVM part of the output is the EVM side's run without the transactions that do not convert.
  lemma {:induction false} EvmPartOfMerge(q: Queues, cosmos: seq<CosmosTx>, log: seq<Moment>,
                                          q': Queues, cosmos': seq<CosmosTx>, p: Params)
    requires IsMerge(q, cosmos, log, q', cosmos', p)
    ensures EvmPart(Output(log)) == Converting(EvmTurns(log), p)
    decreases |log|
  {
    if log != [] {
      var init, m := log[..|log|-1], log[|log|-1];
      EvmPartOfMerge(q, cosmos, init, m.queues, m.cosmos, p);
      assert log == init + [m];
      OneMoreShown(init, m);
      OneMoreTaken(init, m, p);
    }
  }

  // With no conversion failure the Cosmos part is the Cosmos side's own turns and nothing is blank.
  lemma {:induction false} CosmosPartOfMerge(q: Queues, cosmos: seq<CosmosTx>, log: seq<Moment>,
                                             q': Queues, cosmos': seq<CosmosTx>, p: Params)
    requires IsMerge(q, cosmos, log, q', cosmos', p) && AllConvert(EvmTurns(log), p)
    ensures CosmosPart(Output(log)) == CosmosTurns(log) && Blanks(Output(log)) == 0
    decreases |log|
  {
    if log != [] {
      var init, m := log[..|log|-1], log[|log|-1];
      assert log == init + [m];
      OneMoreTaken(init, m, p);
      AllConvertSoFar(EvmTurns(init), EvmTurns(log), p);
      CosmosPartOfMerge(q, cosmos, init, m.queues, m.cosmos, p);
      OneMoreShown(init, m);
      assert m.turn.EvmTurn? ==> p.converts(EvmTurns(log)[|EvmTurns(log)|-1].tx);
    }
  }

  // ---------- What a consumer sees when conversions fail ----------

  ghost predicate Fails(m: Moment, p: Params) {
    m.turn.EvmTurn? && !p.converts(m.turn.emission.tx)
  }

  // How many conversions failed while the Cosmos stream had n transactions left.
  ghost function Failures(log: seq<Moment>, n: nat, p: Params): nat {
    if log == [] then 0
    else
      var m := log[|log|-1];
      Failures(log[..|log|-1], n, p) + if Fails(m, p) && |m.cosmos| == n then 1 else 0
  }

  ghost function Repeat<T>(x: T, n: nat): seq<T> {
    seq(n, _ => x)
  }

  // The first j transactions of the stream, each once and once more for every failure while it was in front.
  ghost function Stuttered(cosmos: seq<CosmosTx>, j: nat, log: seq<Moment>, p: Params): seq<CosmosTx>
    requires j <= |cosmos|
  {
    if j == 0 then []
    else Stuttered(cosmos, j - 1, log, p) + Repeat(cosmos[j-1], 1 + Failures(log, |cosmos| - (j - 1), p))
  }

  lemma {:induction false} StreamOnlyShrinks(q: Queues, cosmos: seq<CosmosTx>, log: seq<Moment>,
                                             q': Queues, cosmos': seq<CosmosTx>, p: Params)
    requires IsMerge(q, cosmos, log, q', cosmos', p)
    ensures |cosmos'| <= |cosmos| && cosmos' == cosmos[|cosmos|-|cosmos'|..]
    ensures forall n: nat :: n < |cosmos'| ==> Failures(log, n, p) == 0
    decreases |log|
  {
    if log != [] {
      var init, m := log[..|log|-1], log[|log|-1];
      StreamOnlyShrinks(q, cosmos, init, m.queues, m.cosmos, p);
    }
  }

  lemma {:induction false} StutteredAgain(cosmos: seq<CosmosTx>, j: nat, log: seq<Moment>, log': seq<Moment>, p: Params)
    requires j <= |cosmos|
    requires forall n: nat :: |cosmos| - j < n ==> Failures(log, n, p) == Failures(log', n, p)
    ensures Stuttered(cosmos, j, log, p) == Stuttered(cosmos, j, log', p)
  {
    if j > 0 {
      StutteredAgain(cosmos, j - 1, log, log', p);
    }
  }

  // The Cosmos part of the output while the stream still has some transactions left.
  ghost function ShownSoFar(cosmos: seq<CosmosTx>, left: nat, log: seq<Moment>, p: Params): seq<CosmosTx>
    requires left <= |cosmos|
  {
    var j := |cosmos| - left;
    Stuttered(cosmos, j, log, p) + if left == 0 then [] else Repeat(cosmos[j], Failures(log, left, p))
  }

  lemma CosmosTurnShows(cosmos: seq<CosmosTx>, init: seq<Moment>, m: Moment, p: Params)
    requires m.turn.CosmosTurn? && m.cosmos != [] && |m.cosmos| <= |cosmos| && m.cosmos == cosmos[|cosmos|-|m.cosmos|..]
    requires forall n: nat :: n < |m.cosmos| ==> Failures(init, n, p) == 0
    ensures ShownSoFar(cosmos, |m.cosmos| - 1, init + [m], p) ==
            ShownSoFar(cosmos, |m.cosmos|, init, p) + [m.cosmos[0]]
  {
    var log, left := init + [m], |m.cosmos|;
    var j := |cosmos| - left;
    assert log[..|init|] == init;
    assert forall n: nat :: Failures(log, n, p) == Failures(init, n, p);
    StutteredAgain(cosmos, j, log, init, p);
    var f := Failures(init, left, p);
    assert Repeat(cosmos[j], 1 + f) == Repeat(cosmos[j], f) + [cosmos[j]];
    assert Stuttered(cosmos, j + 1, log, p) == Stuttered(cosmos, j, log, p) + Repeat(cosmos[j], 1 + f);
    assert left > 1 ==> Repeat(cosmos[j+1], Failures(log, left - 1, p)) == [];
  }

  lemma EvmTurnShows(cosmos: seq<CosmosTx>, init: seq<Moment>, m: Moment, p: Params)
    requires m.turn.EvmTurn? && |m.cosmos| <= |cosmos| && m.cosmos == cosmos[|cosmos|-|m.cosmos|..]
    ensures ShownSoFar(cosmos, |m.cosmos|, init + [m], p) ==
            ShownSoFar(cosmos, |m.cosmos|, init, p) + if Fails(m, p) && m.cosmos != [] then [m.cosmos[0]] else []
  {
    var log, left := init + [m], |m.cosmos|;
    var j := |cosmos| - left;
    assert log[..|init|] == init;
    assert forall n: nat :: n != left ==> Failures(log, n, p) == Failures(init, n, p);
    StutteredAgain(cosmos, j, log, init, p);
    if Fails(m, p) && left > 0 {
      var f := Failures(init, left, p);
      assert Repeat(cosmos[j], f + 1) == Repeat(cosmos[j], f) + [cosmos[j]];
    }
  }

  lemma OneMoreTurn(cosmos: seq<CosmosTx>, init: seq<Moment>, m: Moment, p: Params)
    requires IsTurn(m, p) && m.shown == Shown(m.cosmos, m.turn, p)
    requires |m.cosmos| <= |cosmos| && m.cosmos == cosmos[|cosmos|-|m.cosmos|..]
    requires forall n: nat :: n < |m.cosmos| ==> Failures(init, n, p) == 0
    requires CosmosPart(Output(init)) == ShownSoFar(cosmos, |m.cosmos|, init, p)
    ensures |NextCosmos(m)| <= |cosmos|
    ensures CosmosPart(Output(init + [m])) == ShownSoFar(cosmos, |NextCosmos(m)|, init + [m], p)
  {
    OneMoreShown(init, m);
    if m.turn.EvmTurn? {
      EvmTurnShows(cosmos, init, m, p);
    } else {
      CosmosTurnShows(cosmos, init, m, p);
    }
  }

  lemma {:induction false} CosmosPartSoFar(q: Queues, cosmos: seq<CosmosTx>, log: seq<Moment>,
                                           q': Queues, cosmos': seq<CosmosTx>, p: Params)
    requires IsMerge(q, cosmos, log, q', cosmos', p)
    ensures |cosmos'| <= |cosmos| && CosmosPart(Output(log)) == ShownSoFar(cosmos, |cosmos'|, log, p)
    decreases |log|
  {
    if log == [] {
      assert Output(log) == [];
    } else {
      var init, m := log[..|log|-1], log[|log|-1];
      CosmosPartSoFar(q, cosmos, init, m.queues, m.cosmos, p);
      StreamOnlyShrinks(q, cosmos, init, m.queues, m.cosmos, p);
      assert log == init + [m];
      OneMoreTurn(cosmos, init, m, p);
    }
  }

  lemma {:induction false} BlanksAreLateFailures(q: Queues, cosmos: seq<CosmosTx>, log: seq<Moment>,
                                                 q': Queues, cosmos': seq<CosmosTx>, p: Params)
    requires IsMerge(q, cosmos, log, q', cosmos', p)
    ensures Blanks(Output(log)) == Failures(log, 0, p)
    decreases |log|
  {
    if log != [] {
      var init, m := log[..|log|-1], log[|log|-1];
      BlanksAreLateFailures(q, cosmos, init, m.queues, m.cosmos, p);
      assert log == init + [m];
      OneMoreShown(init, m);
    }
  }

  // A complete iteration shows every Cosmos transaction once, and once more for every conversion that failed
  // while it stood in front; a failure behind the last Cosmos transaction shows nothing.
  lemma CosmosPartInGeneral(q: Queues, cosmos: seq<CosmosTx>, log: seq<Moment>, p: Params)
    requires IsMerge(q, cosmos, log, map[], [], p)
    ensures CosmosPart(Output(log)) == Stuttered(cosmos, |cosmos|, log, p)
    ensures Blanks(Output(log)) == Failures(log, 0, p)
  {
    CosmosPartSoFar(q, cosmos, log, map[], [], p);
    BlanksAreLateFailures(q, cosmos, log, map[], [], p);
  }

  lemma {:induction false} ConvertingIsEverything(es: seq<Emission>, p: Params)
    ensures |Converting(es, p)| <= |es|
    ensures Converting(es, p) == Txs(es) <==> AllConvert(es, p)
  {
    if es != [] {
      var init, last := es[..|es|-1], es[|es|-1];
      ConvertingIsEverything(init, p);
      assert Txs(es) == Txs(init) + [last.tx];
      assert AllConvert(es, p) <==> AllConvert(init, p) && p.converts(last.tx);
      if p.converts(last.tx) && Converting(es, p) == Txs(es) {
        assert Converting(init, p) == Txs(es)[..|es|-1] == Txs(init);
      }
    }
  }

  // Every queued transaction appears in the output exactly once and in order, on both sides, exactly
  // when every queued EVM transaction converts.
  lemma OutputIsInterleavingIffAllConvert(q: Queues, cosmos: seq<CosmosTx>, log: seq<Moment>,
                                          p: Params)
    requires IsMerge(q, cosmos, log, map[], [], p)
    ensures var out := Output(log);
            (forall a :: a in q ==> forall i :: 0 <= i < |q[a]| ==> p.converts(q[a][i])) <==>
            EvmPart(out) == Txs(EvmTurns(log)) && CosmosPart(out) == cosmos && None !in out
  {
    MergeRunsTheHeap(q, cosmos, log, map[], [], p);
    MergeKeepsCosmosOrder(q, cosmos, log, map[], [], p);
    EvmPartOfMerge(q, cosmos, log, map[], [], p);
    ConvertingIsEverything(EvmTurns(log), p);
    RunTransactions(q, EvmTurns(log), p);
    if AllConvert(EvmTurns(log), p) {
      CosmosPartOfMerge(q, cosmos, log, map[], [], p);
      BlanksAreNones(Output(log));
    }
  }

  lemma RunTransactions(q: Queues, es: seq<Emission>, p: Params)
    requires IsRun(q, es, p.heapFee) && After(q, es) == map[]
    ensures AllConvert(es, p) <==> forall a :: a in q ==> forall i :: 0 <= i < |q[a]| ==> p.converts(q[a][i])
  {
    CompleteRunEmitsEachQueueOnce(q, es, p.heapFee);
    forall a, i | a in q && 0 <= i < |q[a]| ensures AllConvert(es, p) ==> p.converts(q[a][i]) {
      assert OfAccount(es, a) == q[a];
      OfAccountMembers(es, a);
      assert Emission(a, q[a][i]) in es;
    }
    forall i | 0 <= i < |es|
      ensures (forall a :: a in q ==> forall k :: 0 <= k < |q[a]| ==> p.converts(q[a][k])) ==> p.converts(es[i].tx)
    {
      OfAccountMembers(es, es[i].from);
      assert OfAccount(es, es[i].from) == QueueOf(q, es[i].from);
    }
  }

  lemma {:induction false} OfAccountMembers(es: seq<Emission>, a: Address)
    ensures forall tx :: tx in OfAccount(es, a) <==> Emission(a, tx) in es
  {
    if es != [] {
      OfAccountMembers(es[..|es|-1], a);
      assert es == es[..|es|-1] + [es[|es|-1]];
    }
  }

  // The failing case at its smallest: one unconvertible EVM transaction and one Cosmos transaction.
  lemma ConversionFailureShowsCosmosTwice(tx: LazyTx, c: CosmosTx, p: Params)
    requires !p.converts(tx) && PositiveGas(c) && CosmosTip(c, p) <= Tip(tx, p.heapFee)
    ensures exists log :: IsMerge(map[0 := [tx]], [c], log, map[], [], p) && CosmosPart(Output(log)) == [c, c]
  {
    var q: Queues := map[0 := [tx]];
    var m0 := Moment(q, [c], EvmTurn(Emission(0, tx)), Some(FromCosmos(c)));
    var m1 := Moment(map[], [c], CosmosTurn(c), Some(FromCosmos(c)));
    assert IsTurn(m0, p) && NextQueues(m0) == map[];
    assert IsTurn(m1, p) && NextCosmos(m1) == [];
    assert IsMerge(q, [c], [], q, [c], p);
    assert [m0][..0] == [] && IsMerge(q, [c], [m0], map[], [c], p);
    assert [m0, m1][..1] == [m0];
    assert IsMerge(q, [c], [m0, m1], map[], [], p);
    assert Output([m0, m1]) == [m0.shown, m1.shown];
    assert [m0.shown, m1.shown][..1] == [m0.shown] && CosmosPart([m0.shown]) == [c];
  }

  // ---------- The iterator ----------

  class EVMMempoolIterator {
    var evm: TransactionsByPriceAndNonce?
    var cosmos: seq<CosmosTx>
    const params: Params

    ghost predicate Valid()
      reads this, evm, if evm == null then {} else {evm.heads}
    {
      && (forall c :: c in cosmos ==> PositiveGas(c))
      && (evm != null ==> evm.Valid() && evm.baseFee == params.heapFee)
    }

    ghost function Queues(): Queues
      reads this, evm
    {
      if evm == null then map[] else evm.queues
    }

    constructor (evm: TransactionsByPriceAndNonce?, cosmos: seq<CosmosTx>, params: Params)
      ensures this.evm == evm && this.cosmos == cosmos && this.params == params
    {
      this.evm, this.cosmos, this.params := evm, cosmos, params;
    }

    // Whether both sides are exhausted.
    ghost predicate Done()
      reads this, evm
    {
      Queues() == map[] && cosmos == []
    }

    // The heap's front has the turn unless the Cosmos front's tip is strictly higher.
    ghost predicate EvmHasTurn()
      reads this, evm, if evm == null then {} else {evm.heads}
      requires Valid()
    {
      evm != null && evm.len > 0 && evm.len <= evm.heads.Length
      && (cosmos == [] || CosmosTip(cosmos[0], params) <= evm.heads[0].fees)
    }

    ghost function Current(): Moment
      reads this, evm, if evm == null then {} else {evm.heads}
      requires Valid() && !Done()
    {
      var turn :=
        if EvmHasTurn() then EvmTurn(Emission(evm.heads[0].from, evm.heads[0].tx))
        else if cosmos != [] then CosmosTurn(cosmos[0])
        else CosmosTurn(CosmosTx(0, false, [], 0));
      Moment(Queues(), cosmos, turn, Shown(cosmos, turn, params))
    }

    lemma CurrentIsTurn()
      requires Valid() && !Done()
      ensures IsTurn(Current(), params)
    {
      if evm != null {
        FrontIsBest(evm.heads[..evm.len], evm.txs, evm.baseFee, evm.queues);
      }
    }

    method GetNextEVMTx() returns (r: Option<Head>)
      requires Valid()
      ensures r.None? <==> Queues() == map[]
      ensures r == if evm != null && evm.len > 0 then Some(evm.heads[0]) else None
    {
      if evm == null {
        r := None;
      } else {
        r := evm.Peek();
      }
    }

    method ExtractCosmosEffectiveTip(tx: CosmosTx) returns (r: Option<nat>)
      requires PositiveGas(tx)
      ensures CosmosTip(tx, params) == if r.None? then 0 else r.value
    {
      if !tx.isFeeTx {
        return None;
      }
      var amount := 0;
      for i := 0 to |tx.fees|
        invariant amount == BondAmount(tx.fees[..i], params.bondDenom)
      {
        assert tx.fees[..i+1][..i] == tx.fees[..i];
        if tx.fees[i].denom == params.bondDenom {
          amount := tx.fees[i].amount;
        }
      }
      assert tx.fees[..|tx.fees|] == tx.fees;
      var gasPrice := amount / tx.gas;
      if gasPrice > MAX_UINT256 {
        return None;
      }
      if params.chainFee.None? {
        return Some(gasPrice);
      }
      if gasPrice < params.chainFee.value {
        return Some(0);
      }
      return Some(gasPrice - params.chainFee.value);
    }

    method GetNextCosmosTx() returns (r: Option<(CosmosTx, nat)>)
      requires Valid()
      ensures r == if cosmos == [] then None else Some((cosmos[0], CosmosTip(cosmos[0], params)))
    {
      if cosmos == [] {
        return None;
      }
      var tip := ExtractCosmosEffectiveTip(cosmos[0]);
      r := Some((cosmos[0], if tip.None? then 0 else tip.value));
    }

    method ShouldUseEVM() returns (useEvm: bool)
      requires Valid()
      ensures useEvm == EvmHasTurn()
    {
      var nextEvm := GetNextEVMTx();
      var nextCosmos := GetNextCosmosTx();
      if nextEvm.None? {
        return false;
      }
      if nextCosmos.None? {
        return true;
      }
      if nextCosmos.value.1 == 0 {
        return true;
      }
      return !(nextCosmos.value.1 > nextEvm.value.fees);
    }

    method Tx() returns (tx: Option<SdkTx>)
      requires Valid()
      ensures tx == if Done() then None else Current().shown
    {
      var nextEvm := GetNextEVMTx();
      var nextCosmos := GetNextCosmosTx();
      if nextEvm.None? && nextCosmos.None? {
        return None;
      }
      var fallback := if nextCosmos.None? then None else Some(FromCosmos(nextCosmos.value.0));
      var useEvm := ShouldUseEVM();
      if useEvm && nextEvm.Some? && params.converts(nextEvm.value.tx) {
        return Some(FromEvm(nextEvm.value.tx));
      }
      return fallback;
    }

    method AdvanceCurrentIterator()
      requires Valid() && !Done()
      modifies this, evm, if evm == null then {} else {evm.heads}
      ensures Valid() && evm == old(evm) && (evm != null ==> evm.heads == old(evm.heads))
      ensures Queues() == NextQueues(old(Current())) && cosmos == NextCosmos(old(Current()))
    {
      var useEvm := ShouldUseEVM();
      if useEvm {
        evm.Shift();
      } else if cosmos != [] {
        cosmos := cosmos[1..];
      }
    }

    method HasMoreTransactions() returns (more: bool)
      requires Valid()
      ensures more <==> !Done()
    {
      var leftEvm := GetNextEVMTx();
      var leftCosmos := GetNextCosmosTx();
      more := leftEvm.Some? || leftCosmos.Some?;
    }

    // Returns whether the iterator is still live; the source returns nil when it is not.
    method Next() returns (more: bool)
      requires Valid()
      modifies this, evm, if evm == null then {} else {evm.heads}
      ensures Valid() && evm == old(evm) && (evm != null ==> evm.heads == old(evm.heads))
      ensures more <==> !Done()
      ensures old(Done()) ==> Done()
      ensures !old(Done()) ==> Queues() == NextQueues(old(Current())) && cosmos == NextCosmos(old(Current()))
    {
      more := HasMoreTransactions();
      if more {
        AdvanceCurrentIterator();
        more := HasMoreTransactions();
      }
    }

    // One round of a consumer: look at the transaction, then move on.
    method TakeOne() returns (tx: Option<SdkTx>, more: bool, ghost m: Moment)
      requires Valid() && !Done()
      modifies this, evm, if evm == null then {} else {evm.heads}
      ensures Valid() && evm == old(evm) && (evm != null ==> evm.heads == old(evm.heads))
      ensures m == old(Current()) && IsTurn(m, params) && tx == m.shown == Shown(m.cosmos, m.turn, params)
      ensures m.queues == old(Queues()) && m.cosmos == old(cosmos)
      ensures Queues() == NextQueues(m) && cosmos == NextCosmos(m) && (more <==> !Done())
    {
      CurrentIsTurn();
      m := Current();
      tx := Tx();
      more := Next();
    }

    // A consumer's pass over the whole mempool.
    method Drain() returns (out: seq<Option<SdkTx>>, ghost log: seq<Moment>)
      requires Valid()
      modifies this, evm, if evm == null then {} else {evm.heads}
      ensures Done() && out == Output(log)
      ensures IsMerge(old(Queues()), old(cosmos), log, map[], [], params)
    {
      out, log := [], [];
      var more := HasMoreTransactions();
      while more
        invariant Valid() && evm == old(evm) && (evm != null ==> evm.heads == old(evm.heads))
        invariant more <==> !Done()
        invariant out == Output(log)
        invariant IsMerge(old(Queues()), old(cosmos), log, Queues(), cosmos, params)
        decreases Slots(Queues()), |cosmos|
      {
        ghost var before := log;
        var tx; ghost var m;
        tx, more, m := TakeOne();
        MergeExtend(old(Queues()), old(cosmos), before, m, params);
        out, log := out + [tx], log + [m];
      }
    }
  }

  // There is no iterator over two empty streams.
  method NewEVMMempoolIterator(evm: TransactionsByPriceAndNonce?, cosmos: seq<CosmosTx>, params: Params)
    returns (it: EVMMempoolIterator?)
    requires forall c :: c in cosmos ==> PositiveGas(c)
    requires evm != null ==> evm.Valid() && evm.baseFee == params.heapFee
    ensures it == null <==> (evm == null || evm.queues == map[]) && cosmos == []
    ensures it != null ==> fresh(it) && it.Valid() && !it.Done()
    ensures it != null ==> it.evm == evm && it.cosmos == cosmos && it.params == params
  {
    var hasEvm := evm != null && evm.len > 0;
    if evm != null {
      FrontIsBest(evm.heads[..evm.len], evm.txs, evm.baseFee, evm.queues);
    }
    if !hasEvm && cosmos == [] {
      return null;
    }
    it := new EVMMempoolIterator(evm, cosmos, params);
  }
}
