/** ValidateTransactionWithState of mempool/txpool/validation.go, and what a pool that obeys it keeps. */
module Solvency {
  import opened Common

  const NONCE_LIMIT: nat := 0x1_0000_0000_0000_0000

  datatype Tx = Tx(sender: Option<Address>, nonce: nat, cost: nat)

  datatype Chain = Chain(nonce: Address -> nat, balance: Address -> nat)

  // The pool's callbacks; the first two are optional.
  datatype Options = Options(
    firstNonceGap: Option<Address -> nat>,
    usedAndLeftSlots: Option<Address -> (int, int)>,
    existingExpenditure: Address -> nat,
    existingCost: (Address, nat) -> Option<nat>)

  datatype Error = InvalidSender | NonceTooLow | NonceTooHigh | InsufficientFunds | AccountLimitExceeded

  function Validate(tx: Tx, chain: Chain, opts: Options): Result<(), Error> {
    if tx.sender.None? then Err(InvalidSender)
    else
      var from := tx.sender.value;
      var balance := chain.balance(from);
      if chain.nonce(from) > tx.nonce then Err(NonceTooLow)
      else if opts.firstNonceGap.Some? && opts.firstNonceGap.value(from) < tx.nonce then Err(NonceTooHigh)
      else if balance < tx.cost then Err(InsufficientFunds)
      else
        var spent := opts.existingExpenditure(from);
        match opts.existingCost(from, tx.nonce)
        case Some(prev) =>
          var bump := tx.cost - prev;
          if balance < spent + bump then Err(InsufficientFunds) else Ok(())
        case None =>
          if balance < spent + tx.cost then Err(InsufficientFunds)
          else if opts.usedAndLeftSlots.Some? && opts.usedAndLeftSlots.value(from).1 <= 0
          then Err(AccountLimitExceeded)
          else Ok(())
  }

  // ---------- The pool ----------

  // The pooled transactions of one account: nonce to cost.
  type Pooled = map<nat, nat>

  type Pool = map<Address, Pooled>

  function Of(pool: Pool, a: Address): Pooled {
    if a in pool then pool[a] else map[]
  }

  function CostBelow(m: Pooled, n: nat): nat {
    if n == 0 then 0 else CostBelow(m, n - 1) + if n - 1 in m then m[n - 1] else 0
  }

  function TotalCost(m: Pooled): nat {
    CostBelow(m, NONCE_LIMIT)
  }

  lemma {:induction false} CostOfUpdate(m: Pooled, nonce: nat, cost: nat, n: nat)
    ensures CostBelow(m[nonce := cost], n) ==
            if nonce < n then CostBelow(m, n) + cost - (if nonce in m then m[nonce] else 0) else CostBelow(m, n)
  {
    if n > 0 {
      CostOfUpdate(m, nonce, cost, n - 1);
    }
  }

  ghost predicate IsFirstGap(m: Pooled, next: nat, gap: nat) {
    next <= gap && gap !in m && forall k :: next <= k < gap ==> k in m
  }

  ghost predicate NoGaps(m: Pooled, next: nat) {
    forall n, k :: n in m && next <= k < n ==> k in m
  }

  // The callbacks report the pool as it is. cap is the number of slots an account may use.
  ghost predicate Faithful(opts: Options, pool: Pool, chain: Chain, cap: nat) {
    && (opts.firstNonceGap.Some? ==> forall a :: IsFirstGap(Of(pool, a), chain.nonce(a), opts.firstNonceGap.value(a)))
    && (opts.usedAndLeftSlots.Some? ==>
          forall a :: opts.usedAndLeftSlots.value(a) == (|Of(pool, a)|, cap - |Of(pool, a)|))
    && (forall a :: opts.existingExpenditure(a) == TotalCost(Of(pool, a)))
    && (forall a, n :: opts.existingCost(a, n) == if n in Of(pool, a) then Some(Of(pool, a)[n]) else None)
  }

  // What the validation protects, for one account.
  ghost predicate Sound(m: Pooled, a: Address, chain: Chain, cap: nat, gapless: bool, capped: bool) {
    && (forall n :: n in m ==> chain.nonce(a) <= n < NONCE_LIMIT)
    && TotalCost(m) <= chain.balance(a)
    && (gapless ==> NoGaps(m, chain.nonce(a)))
    && (capped ==> |m| <= cap)
  }

  lemma GapDecidesNoGaps(m: Pooled, next: nat, gap: nat, nonce: nat, cost: nat)
    requires IsFirstGap(m, next, gap) && NoGaps(m, next) && next <= nonce
    requires forall n :: n in m ==> next <= n
    ensures NoGaps(m[nonce := cost], next) <==> nonce <= gap
  {
    var m' := m[nonce := cost];
    if nonce <= gap {
      forall n, k | n in m' && next <= k < n ensures k in m' {
      }
    } else {
      assert nonce in m' && gap !in m';
    }
  }

  // The check accepts exactly the transactions whose admission leaves the account sound.
  lemma AcceptsExactlyWhatStaysSound(tx: Tx, chain: Chain, opts: Options, pool: Pool, cap: nat)
    requires tx.sender.Some? && tx.nonce < NONCE_LIMIT
    requires Faithful(opts, pool, chain, cap)
    requires Sound(Of(pool, tx.sender.value), tx.sender.value, chain, cap,
                   opts.firstNonceGap.Some?, opts.usedAndLeftSlots.Some?)
    ensures Validate(tx, chain, opts).Ok? <==>
            Sound(Of(pool, tx.sender.value)[tx.nonce := tx.cost], tx.sender.value, chain, cap,
                  opts.firstNonceGap.Some?, opts.usedAndLeftSlots.Some?)
  {
    var a := tx.sender.value;
    var m := Of(pool, a);
    var m' := m[tx.nonce := tx.cost];
    CostOfUpdate(m, tx.nonce, tx.cost, NONCE_LIMIT);
    EntryIsBelowTotal(m, tx.nonce, NONCE_LIMIT);
    assert tx.nonce in m';
    assert opts.existingCost(a, tx.nonce) == if tx.nonce in m then Some(m[tx.nonce]) else None;
    if opts.firstNonceGap.Some? && chain.nonce(a) <= tx.nonce {
      GapDecidesNoGaps(m, chain.nonce(a), opts.firstNonceGap.value(a), tx.nonce, tx.cost);
    }
    assert |m'| == if tx.nonce in m then |m| else |m| + 1;
  }

  lemma {:induction false} EntryIsBelowTotal(m: Pooled, nonce: nat, n: nat)
    requires nonce < n
    ensures nonce in m ==> m[nonce] <= CostBelow(m, n)
  {
    if nonce < n - 1 {
      EntryIsBelowTotal(m, nonce, n - 1);
    }
  }

  // A refusal names what admission would break, in the order of the checks: a stale nonce, a gap, the balance, the
  // slots.
  lemma ErrorTellsWhatBreaks(tx: Tx, chain: Chain, opts: Options, pool: Pool, cap: nat)
    requires tx.sender.Some? && tx.nonce < NONCE_LIMIT
    requires Faithful(opts, pool, chain, cap)
    requires Sound(Of(pool, tx.sender.value), tx.sender.value, chain, cap,
                   opts.firstNonceGap.Some?, opts.usedAndLeftSlots.Some?)
    ensures var a := tx.sender.value;
            var r, after, next := Validate(tx, chain, opts), Of(pool, a)[tx.nonce := tx.cost], chain.nonce(a);
            var noGap := opts.firstNonceGap.Some? ==> NoGaps(after, next);
            && (r == Err(NonceTooLow) <==> tx.nonce < next)
            && (r == Err(NonceTooHigh) <==> next <= tx.nonce && !noGap)
            && (r == Err(InsufficientFunds) <==> next <= tx.nonce && noGap && chain.balance(a) < TotalCost(after))
            && (r == Err(AccountLimitExceeded) <==>
                next <= tx.nonce && noGap && TotalCost(after) <= chain.balance(a)
                && opts.usedAndLeftSlots.Some? && cap < |after|)
  {
    var a := tx.sender.value;
    var m := Of(pool, a);
    CostOfUpdate(m, tx.nonce, tx.cost, NONCE_LIMIT);
    EntryIsBelowTotal(m, tx.nonce, NONCE_LIMIT);
    assert opts.existingCost(a, tx.nonce) == if tx.nonce in m then Some(m[tx.nonce]) else None;
    if opts.firstNonceGap.Some? && chain.nonce(a) <= tx.nonce {
      GapDecidesNoGaps(m, chain.nonce(a), opts.firstNonceGap.value(a), tx.nonce, tx.cost);
    }
    assert |m[tx.nonce := tx.cost]| == if tx.nonce in m then |m| else |m| + 1;
  }

  // ---------- Runs ----------

  // One submission: the transaction and the callbacks as they stand when it arrives.
  datatype Submission = Submission(tx: Tx, opts: Options)

  function Admit(pool: Pool, s: Submission, chain: Chain): Pool {
    if Validate(s.tx, chain, s.opts).Ok?
    then pool[s.tx.sender.value := Of(pool, s.tx.sender.value)[s.tx.nonce := s.tx.cost]]
    else pool
  }

  function PoolAfter(run: seq<Submission>, chain: Chain): Pool {
    if run == [] then map[] else Admit(PoolAfter(run[..|run|-1], chain), run[|run|-1], chain)
  }

  ghost predicate WellFormedRun(run: seq<Submission>, chain: Chain, cap: nat, gapless: bool, capped: bool) {
    forall k :: 0 <= k < |run| ==> WellFormedSubmission(run[k], PoolAfter(run[..k], chain), chain, cap, gapless, capped)
  }

  ghost predicate WellFormedSubmission(s: Submission, pool: Pool, chain: Chain, cap: nat, gapless: bool, capped: bool) {
    && s.tx.nonce < NONCE_LIMIT && Faithful(s.opts, pool, chain, cap)
    && s.opts.firstNonceGap.Some? == gapless && s.opts.usedAndLeftSlots.Some? == capped
  }

  // Any run of inserts and replacements from an empty pool leaves every account solvent, with no stale
  // nonce, without gaps when gaps are checked and within its slots when slots are counted.
  lemma {:induction false} RunsStaySound(run: seq<Submission>, chain: Chain, cap: nat, gapless: bool, capped: bool,
                                         a: Address)
    requires WellFormedRun(run, chain, cap, gapless, capped)
    ensures Sound(Of(PoolAfter(run, chain), a), a, chain, cap, gapless, capped)
  {
    if run == [] {
      EmptyCostsNothing(NONCE_LIMIT);
    } else {
      var init, last := run[..|run|-1], run[|run|-1];
      assert WellFormedSubmission(last, PoolAfter(run[..|run|-1], chain), chain, cap, gapless, capped);
      forall k | 0 <= k < |init|
        ensures WellFormedSubmission(init[k], PoolAfter(init[..k], chain), chain, cap, gapless, capped)
      {
        assert init[..k] == run[..k];
        assert WellFormedSubmission(run[k], PoolAfter(run[..k], chain), chain, cap, gapless, capped);
      }
      RunsStaySound(init, chain, cap, gapless, capped, a);
      if last.tx.sender == Some(a) {
        AcceptsExactlyWhatStaysSound(last.tx, chain, last.opts, PoolAfter(init, chain), cap);
      }
    }
  }

  lemma {:induction false} EmptyCostsNothing(n: nat)
    ensures CostBelow(map[], n) == 0
  {
    if n > 0 {
      EmptyCostsNothing(n - 1);
    }
  }
}
