/** The dynamic fee of Cosmos transactions (ante/evm/fee_checker.go): EIP-1559 pricing in decimals with 18
    fractional digits. */
module FeeChecker {
  import opened Arithmetic
  import opened Common

  // A decimal is its value times 10^18.
  const UNIT: nat := 1_000_000_000_000_000_000
  const MAX_INT64: nat := 0x7FFF_FFFF_FFFF_FFFF
  const MAX_UINT64: nat := 0xFFFF_FFFF_FFFF_FFFF

  datatype ExtOption = DynamicFee(maxPriorityPrice: Option<int>) | OtherOption

  // options is None for a transaction type without extension options.
  datatype FeeTx = FeeTx(fee: nat, gas: nat, options: Option<seq<ExtOption>>)

  datatype Error = NegativeTip | ZeroGas | FeeTooLow

  datatype Params = Params(baseFee: Option<nat>, enabled: bool, reduction: nat)

  function Min(a: int, b: int): int {
    if a <= b then a else b
  }

  // ---------- Rounding ----------

  function CeilDiv(x: nat, d: nat): nat
    requires d > 0
  {
    (x + d - 1) / d
  }

  // n is at most the quotient exactly when n times the divisor is at most the dividend.
  lemma FloorIsGreatest(x: nat, d: nat, n: nat)
    requires d > 0
    ensures n * d <= x <==> n <= x / d
  {
    var q := x / d;
    assert x == q * d + x % d && 0 <= x % d < d;
    if n <= q {
      assert (q - n) * d >= 0;
    } else {
      assert (n - q - 1) * d >= 0;
      assert n * d == q * d + d + (n - q - 1) * d;
    }
  }

  lemma CeilIsLeast(x: nat, d: nat, n: nat)
    requires d > 0
    ensures x <= n * d <==> CeilDiv(x, d) <= n
  {
    var y := x + d - 1;
    FloorIsGreatest(y, d, n + 1);
    assert (n + 1) * d == n * d + d;
  }

  // ---------- Prices ----------

  // The first dynamic-fee option decides; a nil price counts as zero and no option as the largest int64.
  function TipCap(options: seq<ExtOption>): int {
    if options == [] then MAX_INT64 * UNIT
    else
      match options[0]
      case DynamicFee(price) => if price.None? then 0 else price.value
      case OtherOption => TipCap(options[1..])
  }

  function BaseFee(params: Params): nat {
    if params.baseFee.None? || !params.enabled then 0 else params.baseFee.value
  }

  function FeeCap(fee: nat, gas: nat): nat
    requires gas > 0
  {
    fee * UNIT / gas
  }

  function EffectivePrice(baseFee: int, feeCap: int, tipCap: int): int {
    Min(tipCap + baseFee, feeCap)
  }

  function Price(baseFee: nat, tip: nat, fee: nat, gas: nat): (p: nat)
    requires gas > 0
  {
    EffectivePrice(baseFee, FeeCap(fee, gas), tip)
  }

  function Charge(price: nat, gas: nat): nat {
    CeilDiv(price * gas, UNIT)
  }

  function Priority(price: nat, baseFee: nat, reduction: nat): (p: int)
    requires reduction > 0 && baseFee <= price
    ensures 0 <= p <= MAX_INT64
  {
    var p := (price - baseFee) / reduction / UNIT;
    if p <= MAX_INT64 then p else MAX_INT64
  }

  // ---------- Bounds ----------

  // The fee cap reaches the base fee exactly when the offered fee covers it for all gas.
  lemma FeeCapCoversBase(baseFee: nat, fee: nat, gas: nat)
    requires gas > 0
    ensures baseFee <= FeeCap(fee, gas) <==> baseFee * gas <= fee * UNIT
  {
    FloorIsGreatest(fee * UNIT, gas, baseFee);
  }

  // An accepted transaction pays at least the base fee for all its gas and never more than it offered.
  lemma ChargeIsBounded(baseFee: nat, tip: nat, fee: nat, gas: nat)
    requires gas > 0 && baseFee <= FeeCap(fee, gas)
    ensures baseFee * gas <= Charge(Price(baseFee, tip, fee, gas), gas) * UNIT
    ensures Charge(Price(baseFee, tip, fee, gas), gas) <= fee
  {
    var price := Price(baseFee, tip, fee, gas);
    Monotone(baseFee, price, gas);
    CeilIsLeast(price * gas, UNIT, Charge(price, gas));
    Monotone(price, FeeCap(fee, gas), gas);
    FloorIsGreatest(fee * UNIT, gas, FeeCap(fee, gas));
    CeilIsLeast(price * gas, UNIT, fee);
  }

  // What is charged above the base fee is the smaller of the tip cap and the room under the fee cap.
  lemma TipIsCapped(baseFee: nat, tip: nat, fee: nat, gas: nat)
    requires gas > 0 && baseFee <= FeeCap(fee, gas)
    ensures Price(baseFee, tip, fee, gas) - baseFee == Min(tip, FeeCap(fee, gas) - baseFee)
  {
  }

  // When the fee cap binds, the charge falls short of the offer by exactly the whole units in the remainder
  // of the division by gas.
  lemma ShortfallWhenCapBinds(fee: nat, gas: nat)
    requires gas > 0
    ensures Charge(FeeCap(fee, gas), gas) == fee - fee * UNIT % gas / UNIT
  {
    var r := fee * UNIT % gas;
    var s := r / UNIT;
    assert FeeCap(fee, gas) * gas == fee * UNIT - r;
    assert s * UNIT <= r < (s + 1) * UNIT;
    var x: nat := fee * UNIT - r;
    assert s <= fee;
    CeilIsLeast(x, UNIT, fee - s);
    if s < fee {
      CeilIsLeast(x, UNIT, fee - s - 1);
    }
  }

  // So the whole offer is charged exactly when that remainder is below one unit; this holds for all gas up
  // to 10^18, and no uint64 amount of gas loses more than 18 units.
  lemma CapChargesTheOffer(fee: nat, gas: nat)
    requires 0 < gas <= MAX_UINT64
    ensures Charge(FeeCap(fee, gas), gas) == fee <==> fee * UNIT % gas < UNIT
    ensures gas <= UNIT ==> Charge(FeeCap(fee, gas), gas) == fee
    ensures fee - 18 <= Charge(FeeCap(fee, gas), gas) <= fee
  {
    ShortfallWhenCapBinds(fee, gas);
  }

  // The bound is reached: with the most gas a transaction can name and no base fee, an offer of 18 units is
  // accepted and charged nothing.
  lemma EighteenUnitsCanBeLost()
    ensures Check(Params(None, true, 1), FeeTx(18, MAX_UINT64, None)) == Ok((0, 0))
  {
  }

  // ---------- Monotonicity ----------

  lemma PriceIsMonotone(baseFee: nat, tip: nat, tip': nat, fee: nat, fee': nat, gas: nat)
    requires gas > 0 && tip <= tip' && fee <= fee'
    ensures FeeCap(fee, gas) <= FeeCap(fee', gas)
    ensures Price(baseFee, tip, fee, gas) <= Price(baseFee, tip', fee', gas)
  {
    FloorIsGreatest(fee * UNIT, gas, FeeCap(fee, gas));
    FloorIsGreatest(fee' * UNIT, gas, FeeCap(fee, gas));
  }

  // Offering more, or a larger tip, never lowers the charge or the priority.
  lemma ChargeAndPriorityAreMonotone(baseFee: nat, tip: nat, tip': nat, fee: nat, fee': nat,
                                     gas: nat, reduction: nat)
    requires gas > 0 && reduction > 0 && tip <= tip' && fee <= fee' && baseFee <= FeeCap(fee, gas)
    ensures baseFee <= FeeCap(fee', gas)
    ensures Charge(Price(baseFee, tip, fee, gas), gas) <= Charge(Price(baseFee, tip', fee', gas), gas)
    ensures Priority(Price(baseFee, tip, fee, gas), baseFee, reduction)
            <= Priority(Price(baseFee, tip', fee', gas), baseFee, reduction)
  {
    PriceIsMonotone(baseFee, tip, tip', fee, fee', gas);
    var p, p' := Price(baseFee, tip, fee, gas), Price(baseFee, tip', fee', gas);
    Monotone(p, p', gas);
    CeilIsLeast(p * gas, UNIT, Charge(p', gas));
    CeilIsLeast(p' * gas, UNIT, Charge(p', gas));
    var q := (p - baseFee) / reduction;
    FloorIsGreatest(p - baseFee, reduction, q);
    FloorIsGreatest(p' - baseFee, reduction, q);
  }

  // ---------- The documented priority ----------

  // The priority as documented: the effective gas price over the reduction, the base fee not subtracted.
  function Documented(price: nat, reduction: nat): nat
    requires reduction > 0
  {
    var p := price / reduction / UNIT;
    if p <= MAX_INT64 then p else MAX_INT64
  }

  lemma Regroup(n: nat, b: nat, a: nat)
    ensures n * b * a == n * (a * b)
  {
  }

  lemma BelowBothQuotients(x: nat, a: nat, b: nat, y: nat, d: nat, n: nat)
    requires a > 0 && b > 0 && d > 0 && d == a * b && y == x / a
    ensures n <= y / b <==> n <= x / d
  {
    var m := n * b;
    FloorIsGreatest(y, b, n);
    FloorIsGreatest(x, a, m);
    FloorIsGreatest(x, d, n);
    Regroup(n, b, a);
  }

  lemma DivideTwice(x: nat, a: nat, b: nat, y: nat, d: nat)
    requires a > 0 && b > 0 && d > 0 && d == a * b && y == x / a
    ensures y / b == x / d
  {
    BelowBothQuotients(x, a, b, y, d, y / b);
    BelowBothQuotients(x, a, b, y, d, x / d);
  }

  // Taking away b leaves the quotient as it is exactly when the remainder covers b.
  lemma SameQuotientIff(x: nat, b: nat, d: nat)
    requires d > 0 && b <= x
    ensures (x - b) / d <= x / d
    ensures (x - b) / d == x / d <==> b <= x % d
  {
    var q := x / d;
    assert x == q * d + x % d;
    FloorIsGreatest(x - b, d, q);
    FloorIsGreatest(x, d, (x - b) / d);
    FloorIsGreatest(x - b, d, (x - b) / d);
  }

  // The code subtracts the base fee first. The two priorities agree exactly when the base fee fits into what
  // the division drops, or when both are cut off at the largest int64.
  lemma PriorityIsDocumentedIff(price: nat, baseFee: nat, reduction: nat)
    requires reduction > 0 && baseFee <= price
    ensures reduction * UNIT > 0
    ensures Priority(price, baseFee, reduction) == Documented(price, reduction) <==>
            baseFee <= price % (reduction * UNIT) || (price - baseFee) / (reduction * UNIT) >= MAX_INT64
  {
    DivideTwice(price, reduction, UNIT, price / reduction, reduction * UNIT);
    DivideTwice(price - baseFee, reduction, UNIT, (price - baseFee) / reduction, reduction * UNIT);
    SameQuotientIff(price, baseFee, reduction * UNIT);
  }

  // A price of one reduction with a base fee of one: the documented priority is one, the code's is zero.
  lemma PriorityIsNotDocumented()
    ensures Priority(1_000_000 * UNIT, UNIT, 1_000_000) == 0 && Documented(1_000_000 * UNIT, 1_000_000) == 1
  {
    PriorityIsDocumentedIff(1_000_000 * UNIT, UNIT, 1_000_000);
  }

  // ---------- The check ----------

  function Tip(tx: FeeTx): int {
    if tx.options.None? then MAX_INT64 * UNIT else TipCap(tx.options.value)
  }

  // The charged fee and the priority.
  function Check(params: Params, tx: FeeTx): Result<(nat, int), Error>
    requires params.reduction > 0
  {
    if Tip(tx) < 0 then Err(NegativeTip)
    else if tx.gas == 0 then Err(ZeroGas)
    else if FeeCap(tx.fee, tx.gas) < BaseFee(params) then Err(FeeTooLow)
    else
      var price := Price(BaseFee(params), Tip(tx), tx.fee, tx.gas);
      Ok((Charge(price, tx.gas), Priority(price, BaseFee(params), params.reduction)))
  }

  // A transaction is accepted exactly when its tip is not negative, it names some gas and its offer covers
  // the base fee; it then pays between the base fee and its offer.
  lemma CheckAcceptsCoveredFees(params: Params, tx: FeeTx)
    requires params.reduction > 0
    ensures Check(params, tx).Ok? <==> Tip(tx) >= 0 && tx.gas > 0 && BaseFee(params) * tx.gas <= tx.fee * UNIT
    ensures Check(params, tx).Ok? ==>
              var (charged, priority) := Check(params, tx).value;
              BaseFee(params) * tx.gas <= charged * UNIT && charged <= tx.fee && 0 <= priority <= MAX_INT64
  {
    if Tip(tx) >= 0 && tx.gas > 0 {
      FeeCapCoversBase(BaseFee(params), tx.fee, tx.gas);
      if BaseFee(params) <= FeeCap(tx.fee, tx.gas) {
        ChargeIsBounded(BaseFee(params), Tip(tx), tx.fee, tx.gas);
      }
    }
  }

  // q is x over d, rounded down, or the largest int64 when that is less.
  ghost predicate IsCappedQuotient(q: int, x: nat, d: nat) {
    if q == MAX_INT64 then q * d <= x else 0 <= q && q * d <= x < (q + 1) * d
  }

  lemma CappedQuotient(x: nat, d: nat)
    requires d > 0
    ensures IsCappedQuotient(if x / d <= MAX_INT64 then x / d else MAX_INT64, x, d)
  {
    FloorIsGreatest(x, d, x / d);
    FloorIsGreatest(x, d, x / d + 1);
    FloorIsGreatest(x, d, MAX_INT64);
  }

  // base is the fee market's base fee, and nothing when the market has none or is switched off.
  ghost predicate IsBaseFee(params: Params, base: nat) {
    if params.enabled && params.baseFee.Some? then params.baseFee == Some(base) else base == 0
  }

  // The result in terms of the offer. The fee cap is the offered fee per unit of gas, rounded down; the price is the
  // smaller of tip plus base fee and fee cap. The charge is the least whole amount that covers the price for all
  // gas, and the priority is the part of the price above the base fee over the reduction, rounded down.
  lemma CheckChargesThePrice(params: Params, tx: FeeTx, base: nat, cap: nat, charged: nat, priority: int)
    requires params.reduction > 0 && IsBaseFee(params, base)
    requires tx.gas > 0 && cap * tx.gas <= tx.fee * UNIT < (cap + 1) * tx.gas
    requires Check(params, tx) == Ok((charged, priority))
    ensures var price := if Tip(tx) + base <= cap then Tip(tx) + base else cap;
            && base <= price && price * tx.gas <= charged * UNIT < price * tx.gas + UNIT
            && IsCappedQuotient(priority, price - base, params.reduction * UNIT)
  {
    assert cap == FeeCap(tx.fee, tx.gas) by {
      FloorIsGreatest(tx.fee * UNIT, tx.gas, cap);
      FloorIsGreatest(tx.fee * UNIT, tx.gas, cap + 1);
    }
    var price := Price(base, Tip(tx), tx.fee, tx.gas);
    PriceIsCovered(price * tx.gas, charged);
    PriorityIsQuotient(price, base, params.reduction);
  }

  lemma PriceIsCovered(x: nat, charged: nat)
    requires charged == CeilDiv(x, UNIT)
    ensures x <= charged * UNIT < x + UNIT
  {
    CeilIsLeast(x, UNIT, charged);
  }

  lemma PriorityIsQuotient(price: nat, base: nat, reduction: nat)
    requires reduction > 0 && base <= price
    ensures IsCappedQuotient(Priority(price, base, reduction), price - base, reduction * UNIT)
  {
    DivideTwice(price - base, reduction, UNIT, (price - base) / reduction, reduction * UNIT);
    CappedQuotient(price - base, reduction * UNIT);
  }

  // Which error: a negative tip before missing gas, and that before an offer that does not cover the base fee.
  lemma CheckErrors(params: Params, tx: FeeTx, base: nat)
    requires params.reduction > 0 && IsBaseFee(params, base)
    ensures Check(params, tx) == Err(NegativeTip) <==> Tip(tx) < 0
    ensures Check(params, tx) == Err(ZeroGas) <==> Tip(tx) >= 0 && tx.gas == 0
    ensures Check(params, tx) == Err(FeeTooLow) <==> Tip(tx) >= 0 && tx.gas > 0 && tx.fee * UNIT < base * tx.gas
  {
    CheckAcceptsCoveredFees(params, tx);
  }

  // Only the first dynamic-fee option counts.
  lemma {:induction false} FirstOptionDecides(options: seq<ExtOption>, i: nat)
    requires i < |options| && options[i].DynamicFee? && forall j :: 0 <= j < i ==> options[j].OtherOption?
    ensures TipCap(options) == if options[i].maxPriorityPrice.None? then 0 else options[i].maxPriorityPrice.value
  {
    if i > 0 {
      assert options[1..][i-1] == options[i];
      assert forall j :: 0 <= j < i - 1 ==> options[1..][j] == options[j + 1];
      FirstOptionDecides(options[1..], i - 1);
    }
  }

  lemma {:induction false} NoOptionMeansNoCap(options: seq<ExtOption>)
    requires forall j :: 0 <= j < |options| ==> options[j].OtherOption?
    ensures TipCap(options) == MAX_INT64 * UNIT
  {
    if options != [] {
      assert forall j :: 0 <= j < |options| - 1 ==> options[1..][j] == options[j + 1];
      NoOptionMeansNoCap(options[1..]);
    }
  }

  method FindTip(tx: FeeTx) returns (tip: int)
    ensures tip == Tip(tx)
  {
    tip := MAX_INT64 * UNIT;
    if tx.options.Some? {
      var options := tx.options.value;
      for i := 0 to |options|
        invariant tip == MAX_INT64 * UNIT && forall j :: 0 <= j < i ==> options[j].OtherOption?
      {
        if options[i].DynamicFee? {
          FirstOptionDecides(options, i);
          return if options[i].maxPriorityPrice.None? then 0 else options[i].maxPriorityPrice.value;
        }
      }
      NoOptionMeansNoCap(options);
    }
  }

  method CheckFee(params: Params, tx: FeeTx) returns (r: Result<(nat, int), Error>)
    requires params.reduction > 0
    ensures r == Check(params, tx)
  {
    var baseFee := BaseFee(params);
    var tip := FindTip(tx);
    if tip < 0 {
      return Err(NegativeTip);
    }
    if tx.gas == 0 {
      return Err(ZeroGas);
    }
    var feeCap := FeeCap(tx.fee, tx.gas);
    if feeCap < baseFee {
      return Err(FeeTooLow);
    }
    var price := EffectivePrice(baseFee, feeCap, tip);
    return Ok((Charge(price, tx.gas), Priority(price, baseFee, params.reduction)));
  }

  // ---------- The fallback priority ----------

  // The priority that one fee alone would give.
  function FeePriority(fee: nat, gas: nat, reduction: nat): (p: nat)
    requires gas > 0 && reduction > 0
    ensures p <= MAX_INT64
  {
    var amount := fee / gas / reduction;
    if amount <= MAX_INT64 then amount else MAX_INT64
  }

  // The loop of getTxPriority over the fees' priorities.
  function PriorityOf(ps: seq<nat>): nat {
    if ps == [] then 0
    else
      var before, p := PriorityOf(ps[..|ps|-1]), ps[|ps|-1];
      if before == 0 || p < before then p else before
  }

  ghost predicate IsMinimum(m: nat, ps: seq<nat>) {
    m in ps && forall p :: p in ps ==> m <= p
  }

  // A zero is forgotten when another fee follows.
  lemma {:induction false} ZeroOnlyAfterZero(ps: seq<nat>)
    requires ps != []
    ensures PriorityOf(ps) == 0 <==> ps[|ps|-1] == 0
  {
    if |ps| > 1 {
      ZeroOnlyAfterZero(ps[..|ps|-1]);
    }
  }

  lemma {:induction false} PositiveMinimum(ps: seq<nat>)
    requires ps != [] && 0 !in ps
    ensures IsMinimum(PriorityOf(ps), ps)
  {
    var init, last := ps[..|ps|-1], ps[|ps|-1];
    assert ps == init + [last];
    if init != [] {
      PositiveMinimum(init);
    }
  }

  // After a fee of priority zero the loop starts anew: the result is the smallest priority behind the last zero.
  lemma {:induction false} PriorityAfterLastZero(before: seq<nat>, ps: seq<nat>)
    requires 0 !in ps
    ensures var p := PriorityOf(before + [0] + ps); if ps == [] then p == 0 else IsMinimum(p, ps)
  {
    var all := before + [0] + ps;
    if ps == [] {
      assert all[|all|-1] == 0;
    } else {
      var init, last := ps[..|ps|-1], ps[|ps|-1];
      assert all[..|all|-1] == before + [0] + init && ps == init + [last];
      PriorityAfterLastZero(before, init);
    }
  }

  // The priority of one fee: what it pays for each unit of gas over the reduction, rounded down.
  lemma FeePriorityIsQuotient(fee: nat, gas: nat, reduction: nat)
    requires gas > 0 && reduction > 0
    ensures IsCappedQuotient(FeePriority(fee, gas, reduction), fee, gas * reduction)
  {
    Monotone(1, gas, reduction);
    DivideTwice(fee, gas, reduction, fee / gas, gas * reduction);
    CappedQuotient(fee, gas * reduction);
  }

  // A fee has priority zero exactly when it pays less than the reduction for each unit of gas.
  lemma ZeroPriorityIff(fee: nat, gas: nat, reduction: nat)
    requires gas > 0 && reduction > 0
    ensures FeePriority(fee, gas, reduction) == 0 <==> fee < gas * reduction
  {
    Monotone(1, gas, reduction);
    DivideTwice(fee, gas, reduction, fee / gas, gas * reduction);
    FloorIsGreatest(fee, gas * reduction, 1);
  }

  function FeePriorities(fees: seq<nat>, gas: nat, reduction: nat): (ps: seq<nat>)
    requires gas > 0 && reduction > 0
    ensures |ps| == |fees| && forall i :: 0 <= i < |fees| ==> ps[i] == FeePriority(fees[i], gas, reduction)
  {
    seq(|fees|, i requires 0 <= i < |fees| => FeePriority(fees[i], gas, reduction))
  }

  // So the priority is the smallest of the fees' priorities exactly when some fee below the reduction for all
  // gas occurs only if the last fee is one.
  lemma PriorityIsMinimumIff(fees: seq<nat>, gas: nat, reduction: nat)
    requires gas > 0 && reduction > 0 && fees != []
    ensures var ps := FeePriorities(fees, gas, reduction);
            IsMinimum(PriorityOf(ps), ps) <==>
            ((exists i :: 0 <= i < |fees| && fees[i] < gas * reduction) ==> fees[|fees|-1] < gas * reduction)
  {
    var ps := FeePriorities(fees, gas, reduction);
    forall i | 0 <= i < |fees| ensures ps[i] == 0 <==> fees[i] < gas * reduction {
      ZeroPriorityIff(fees[i], gas, reduction);
    }
    ZeroOnlyAfterZero(ps);
    assert ps[|ps|-1] in ps;
    if 0 !in ps {
      PositiveMinimum(ps);
    }
  }

  // A fee of 1 followed by one of 1000000, for one unit of gas: the first one's priority, zero, is forgotten.
  lemma ZeroIsForgotten()
    ensures var ps := FeePriorities([1, 1_000_000], 1, 1_000_000);
            ps == [0, 1] && PriorityOf(ps) == 1 && !IsMinimum(PriorityOf(ps), ps)
  {
    var ps := FeePriorities([1, 1_000_000], 1, 1_000_000);
    assert ps[0] == 0 && ps[1] == 1;
    assert ps[..1][..0] == [] && PriorityOf(ps[..1]) == 0;
    assert ps[0] in ps;
  }

  method GetTxPriority(fees: seq<nat>, gas: nat, reduction: nat) returns (priority: nat)
    requires gas > 0 && reduction > 0
    ensures priority == PriorityOf(FeePriorities(fees, gas, reduction))
  {
    ghost var ps := FeePriorities(fees, gas, reduction);
    priority := 0;
    for i := 0 to |fees|
      invariant priority == PriorityOf(ps[..i])
    {
      var p := FeePriority(fees[i], gas, reduction);
      assert ps[..i+1][..i] == ps[..i];
      if priority == 0 || p < priority {
        priority := p;
      }
    }
    assert ps[..|fees|] == ps;
  }
}
