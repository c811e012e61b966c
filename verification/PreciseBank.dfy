/** sendExtendedCoins of x/precisebank/keeper/send.go: a transfer in 18 decimals as the bank steps it takes,
    with borrows and carries settled through the reserve account. */
module PreciseBank {
  import opened Arithmetic
  import opened Common
  import opened StateJournal
  import opened BalanceMirror

  // bank.SendCoins of n integer coins: a debit with its event, then a credit with its event.
  function TransferSteps(from: Address, to: Address, n: nat): seq<Step> {
    if n == 0 then [] else [Spend(from, n), Receive(to, n)]
  }

  // A fraction after a subtraction, and whether it borrows a coin.
  function SubFraction(c: nat, frac: nat, amount: nat): (r: (nat, bool))
    requires frac < c && amount < c
    ensures r.0 < c && r.0 as int == frac - amount + (if r.1 then c else 0)
  {
    if frac < amount then (frac + c - amount, true) else (frac - amount, false)
  }

  // A fraction after an addition, and whether it carries a coin.
  function AddFraction(c: nat, frac: nat, amount: nat): (r: (nat, bool))
    requires frac < c && amount < c
    ensures r.0 < c && r.0 as int == frac + amount - (if r.1 then c else 0)
  {
    if frac + amount >= c then (frac + amount - c, true) else (frac + amount, false)
  }

  function One(b: bool): nat {
    if b then 1 else 0
  }

  // A lone borrow goes to the reserve and a lone carry comes from it.
  function Settlement(reserve: Address, from: Address, to: Address, borrow: bool, carry: bool): seq<Step> {
    if borrow && !carry then TransferSteps(from, reserve, 1)
    else if carry && !borrow then TransferSteps(reserve, to, 1)
    else []
  }

  // The integer coins of a send: a borrow and a carry together move one coin more directly.
  function Moving(reserve: Address, from: Address, to: Address, i: nat, borrow: bool, carry: bool): seq<Step> {
    TransferSteps(from, to, i + One(borrow && carry)) + Settlement(reserve, from, to, borrow, carry)
  }

  function SendSteps(c: nat, bank: Bank, reserve: Address, from: Address, to: Address, amount: nat): seq<Step>
    requires c >= 1 && bank(from).frac < c && bank(to).frac < c
  {
    if from == reserve || to == reserve then TransferSteps(from, to, amount / c)
    else if from == to then []
    else
      var (senderFrac, borrow) := SubFraction(c, bank(from).frac, amount % c);
      var (receiverFrac, carry) := AddFraction(c, bank(to).frac, amount % c);
      Moving(reserve, from, to, amount / c, borrow, carry) + [SetFrac(from, senderFrac), SetFrac(to, receiverFrac)]
  }

  // ---------- Steps in sequence ----------

  lemma {:induction false} DoInTurn(cfg: Config, bank: Bank, xs: seq<Step>, ys: seq<Step>)
    ensures DoAll(bank, xs + ys) == DoAll(DoAll(bank, xs), ys)
    ensures CanAll(cfg, bank, xs + ys) <==> CanAll(cfg, bank, xs) && CanAll(cfg, DoAll(bank, xs), ys)
    decreases |xs|
  {
    if xs == [] {
      assert xs + ys == ys;
    } else {
      assert (xs + ys)[1..] == xs[1..] + ys;
      DoInTurn(cfg, Do(bank, xs[0]), xs[1..], ys);
    }
  }

  lemma TwoSteps(cfg: Config, bank: Bank, steps: seq<Step>)
    requires |steps| == 2
    ensures DoAll(bank, steps) == Do(Do(bank, steps[0]), steps[1])
    ensures CanAll(cfg, bank, steps) <==> Can(cfg, bank, steps[0]) && Can(cfg, Do(bank, steps[0]), steps[1])
  {
    var b1, rest := Do(bank, steps[0]), steps[1..];
    assert rest[0] == steps[1] && rest[1..] == [];
    assert DoAll(b1, rest) == DoAll(Do(b1, rest[0]), rest[1..]);
    assert CanAll(cfg, b1, rest) <==> Can(cfg, b1, rest[0]) && CanAll(cfg, Do(b1, rest[0]), rest[1..]);
  }

  ghost predicate Moved(bank: Bank, after: Bank, from: Address, to: Address, n: nat)
    requires n <= bank(from).whole
  {
    forall x :: after(x) ==
      if x == from then Account(bank(x).whole - n, bank(x).frac)
      else if x == to then Account(bank(x).whole + n, bank(x).frac)
      else bank(x)
  }

  // A transfer between different accounts moves n integer coins; it needs them on the one side and room for
  // them on the other.
  lemma TransferMoves(cfg: Config, bank: Bank, from: Address, to: Address, n: nat)
    requires from != to && Ext(cfg, bank(to)) + n * cfg.c < MAX256
    ensures CanAll(cfg, bank, TransferSteps(from, to, n)) <==> n <= bank(from).whole
    ensures n <= bank(from).whole ==>
              Moved(bank, DoAll(bank, TransferSteps(from, to, n)), from, to, n)
  {
    if n > 0 {
      var steps := TransferSteps(from, to, n);
      TwoSteps(cfg, bank, steps);
    }
  }

  lemma FractionsSet(cfg: Config, bank: Bank, from: Address, f: nat, to: Address, g: nat)
    requires from != to && f < cfg.c && g < cfg.c
    requires bank(from).whole * cfg.c + f < MAX256 && bank(to).whole * cfg.c + g < MAX256
    ensures CanAll(cfg, bank, [SetFrac(from, f), SetFrac(to, g)])
    ensures forall x :: DoAll(bank, [SetFrac(from, f), SetFrac(to, g)])(x) ==
              if x == from then Account(bank(x).whole, f) else if x == to then Account(bank(x).whole, g) else bank(x)
  {
    TwoSteps(cfg, bank, [SetFrac(from, f), SetFrac(to, g)]);
  }

  // A first transfer of more than there is cannot be made.
  lemma OverdraftFails(cfg: Config, bank: Bank, from: Address, to: Address, n: nat, rest: seq<Step>)
    requires n > bank(from).whole
    ensures !CanAll(cfg, bank, TransferSteps(from, to, n) + rest)
  {
    assert (TransferSteps(from, to, n) + rest)[0] == Spend(from, n);
  }

  // ---------- Sends between two accounts ----------

  // The sender has the coins, a borrowed one included, and the reserve has one for a lone carry.
  predicate Funded(bank: Bank, reserve: Address, from: Address, i: nat, borrow: bool, carry: bool) {
    i + One(borrow) <= bank(from).whole && (carry && !borrow ==> bank(reserve).whole >= 1)
  }

  // The integer coins after the direct transfer and the settlement with the reserve.
  ghost function Settled(bank: Bank, reserve: Address, from: Address, to: Address,
                         i: nat, borrow: bool, carry: bool, x: Address): Account
    requires Funded(bank, reserve, from, i, borrow, carry)
  {
    if x == from then Account(bank(x).whole - i - One(borrow), bank(x).frac)
    else if x == to then Account(bank(x).whole + i + One(carry), bank(x).frac)
    else if x == reserve then Account(bank(x).whole + One(borrow && !carry) - One(carry && !borrow), bank(x).frac)
    else bank(x)
  }

  lemma SettlementMoves(cfg: Config, bank: Bank, b1: Bank, reserve: Address, from: Address,
                        to: Address,
                        i: nat, borrow: bool, carry: bool)
    requires cfg.c >= 1 && from != to && from != reserve && to != reserve
    requires i + One(borrow && carry) <= bank(from).whole && Moved(bank, b1, from, to, i + One(borrow && carry))
    requires Ext(cfg, b1(to)) + cfg.c < MAX256 && Ext(cfg, bank(reserve)) + cfg.c < MAX256
    ensures var settle := Settlement(reserve, from, to, borrow, carry);
            && (CanAll(cfg, b1, settle) <==> Funded(bank, reserve, from, i, borrow, carry))
            && (Funded(bank, reserve, from, i, borrow, carry) ==>
                  forall x :: DoAll(b1, settle)(x) == Settled(bank, reserve, from, to, i, borrow, carry, x))
  {
    if borrow && !carry {
      TransferMoves(cfg, b1, from, reserve, 1);
    } else if carry && !borrow {
      TransferMoves(cfg, b1, reserve, to, 1);
    }
  }

  lemma IntegersMove(cfg: Config, bank: Bank, reserve: Address, from: Address, to: Address,
                     i: nat, borrow: bool, carry: bool)
    requires cfg.c >= 1 && from != to && from != reserve && to != reserve
    requires Ext(cfg, bank(to)) + i * cfg.c + 2 * cfg.c < MAX256 && Ext(cfg, bank(reserve)) + cfg.c < MAX256
    ensures var steps := Moving(reserve, from, to, i, borrow, carry);
            && (CanAll(cfg, bank, steps) <==> Funded(bank, reserve, from, i, borrow, carry))
            && (Funded(bank, reserve, from, i, borrow, carry) ==>
                  forall x :: DoAll(bank, steps)(x) == Settled(bank, reserve, from, to, i, borrow, carry, x))
  {
    var n := i + One(borrow && carry);
    var direct, settle := TransferSteps(from, to, n), Settlement(reserve, from, to, borrow, carry);
    Distribute(i, One(borrow && carry), cfg.c);
    DoInTurn(cfg, bank, direct, settle);
    TransferMoves(cfg, bank, from, to, n);
    if n <= bank(from).whole {
      Distribute(bank(to).whole, n, cfg.c);
      SettlementMoves(cfg, bank, DoAll(bank, direct), reserve, from, to, i, borrow, carry);
    }
  }

  // The sender's integer coins suffice, borrow included, exactly when the whole balance does.
  lemma EnoughCoins(c: nat, whole: nat, frac: nat, i: nat, f: nat)
    requires frac < c && f < c
    ensures i * c + f <= whole * c + frac <==> i + One(frac < f) <= whole
  {
    if frac < f {
      if i + 1 <= whole {
        Distribute(i, 1, c);
        Monotone(i + 1, whole, c);
      } else {
        Monotone(whole, i, c);
      }
    } else if i <= whole {
      Monotone(i, whole, c);
    } else {
      Distribute(whole, 1, c);
      Monotone(whole + 1, i, c);
    }
  }

  // No balance comes near 2^256.
  ghost predicate Roomy(cfg: Config, bank: Bank, reserve: Address, from: Address, to: Address) {
    Ext(cfg, bank(from)) + Ext(cfg, bank(to)) + 3 * cfg.c < MAX256 && Ext(cfg, bank(reserve)) + cfg.c < MAX256
  }

  // Fractions stay below one coin.
  ghost predicate Ready(cfg: Config, bank: Bank, reserve: Address, from: Address, to: Address) {
    cfg.c >= 1 && bank(from).frac < cfg.c && bank(to).frac < cfg.c && Roomy(cfg, bank, reserve, from, to)
  }

  // The receiver's fraction reaches one coin while the sender's covers what it gives: the coin has to come from
  // the reserve.
  predicate NeedsReserve(c: nat, bank: Bank, from: Address, to: Address, amount: nat)
    requires c >= 1
  {
    amount % c <= bank(from).frac && bank(to).frac + amount % c >= c
  }

  // The reserve can give the coin that a send asks of it.
  predicate ReserveGives(c: nat, bank: Bank, reserve: Address, from: Address, to: Address, amount: nat)
    requires c >= 1
  {
    NeedsReserve(c, bank, from, to, amount) ==> bank(reserve).whole >= 1
  }

  // A reserve that backs the fractions of both parties gives the coin to every send.
  lemma BackedReserveGives(cfg: Config, bank: Bank, reserve: Address, from: Address, to: Address, amount: nat)
    requires cfg.c >= 1 && Surplus(cfg, bank, reserve, from, to) >= 0
    ensures ReserveGives(cfg.c, bank, reserve, from, to, amount)
  {
    if bank(reserve).whole == 0 {
      assert bank(reserve).whole * cfg.c == 0;
    }
  }

  // What the reserve holds beyond the fractions of the two parties.
  ghost function Surplus(cfg: Config, bank: Bank, reserve: Address, from: Address, to: Address): int {
    bank(reserve).whole * cfg.c - bank(from).frac - bank(to).frac
  }

  // The state after a send between two accounts other than the reserve: the amount has moved, and the backing
  // of the fractions is unchanged.
  ghost predicate Sent(cfg: Config, bank: Bank, after: Bank, reserve: Address, from: Address, to: Address,
                       amount: nat) {
    && Ext(cfg, after(from)) == Ext(cfg, bank(from)) - amount
    && Ext(cfg, after(to)) == Ext(cfg, bank(to)) + amount
    && after(from).frac < cfg.c && after(to).frac < cfg.c && after(reserve).frac == bank(reserve).frac
    && Surplus(cfg, after, reserve, from, to) == Surplus(cfg, bank, reserve, from, to)
    && forall x :: x != from && x != to && x != reserve ==> after(x) == bank(x)
  }

  lemma SentArithmetic(c: nat, from: Account, to: Account, reserve: Account, i: nat, f: nat,
                       x: nat, y: nat, borrow: bool, carry: bool)
    requires x as int == from.frac - f + (if borrow then c else 0)
    requires y as int == to.frac + f - (if carry then c else 0)
    ensures (from.whole - i - One(borrow)) * c + x == from.whole * c + from.frac - (i * c + f)
    ensures (to.whole + i + One(carry)) * c + y == to.whole * c + to.frac + (i * c + f)
    ensures (reserve.whole + One(borrow && !carry) - One(carry && !borrow)) * c - x - y
            == reserve.whole * c - from.frac - to.frac
  {
    Distribute(from.whole - i, One(borrow), c);
    Distribute(from.whole, i, c);
    Distribute(to.whole + i, One(carry), c);
    Distribute(to.whole, i, c);
    Distribute(reserve.whole + One(borrow && !carry), One(carry && !borrow), c);
    Distribute(reserve.whole, One(borrow && !carry), c);
  }

  lemma ExtIsNatural(cfg: Config, acc: Account)
    ensures acc.frac <= Ext(cfg, acc)
  {
  }

  lemma BalancesAfter(cfg: Config, from: Account, to: Account, reserve: Account,
                      from': Account, to': Account, reserve': Account,
                      amount: nat, i: nat, f: nat, x: nat, y: nat, borrow: bool, carry: bool)
    requires x as int == from.frac - f + (if borrow then cfg.c else 0)
    requires y as int == to.frac + f - (if carry then cfg.c else 0)
    requires from'.whole == from.whole - i - One(borrow) && to'.whole == to.whole + i + One(carry)
    requires reserve'.whole == reserve.whole + One(borrow && !carry) - One(carry && !borrow)
    requires amount == i * cfg.c + f && amount <= Ext(cfg, from) && Ext(cfg, from) + Ext(cfg, to) < MAX256
    requires Ext(cfg, to) >= 0
    ensures from'.whole * cfg.c + x == Ext(cfg, from) - amount < MAX256
    ensures to'.whole * cfg.c + y == Ext(cfg, to) + amount < MAX256
    ensures reserve'.whole * cfg.c - x - y == reserve.whole * cfg.c - from.frac - to.frac
  {
    SentArithmetic(cfg.c, from, to, reserve, i, f, x, y, borrow, carry);
  }

  lemma QuotientAndRemainder(amount: nat, c: nat)
    requires c >= 1
    ensures amount / c >= 0 && 0 <= amount % c < c && amount == (amount / c) * c + amount % c
  {
  }

  lemma FractionsFinishTheSend(cfg: Config, bank: Bank, b2: Bank,
                               reserve: Address, from: Address, to: Address,
                               amount: nat, i: nat, f: nat, x: nat, y: nat,
                               borrow: bool, carry: bool)
    requires Ready(cfg, bank, reserve, from, to) && from != to && from != reserve && to != reserve
    requires amount == i * cfg.c + f && amount <= Ext(cfg, bank(from)) && x < cfg.c && y < cfg.c
    requires x as int == bank(from).frac - f + (if borrow then cfg.c else 0)
    requires y as int == bank(to).frac + f - (if carry then cfg.c else 0)
    requires Funded(bank, reserve, from, i, borrow, carry)
    requires forall a :: b2(a) == Settled(bank, reserve, from, to, i, borrow, carry, a)
    ensures CanAll(cfg, b2, [SetFrac(from, x), SetFrac(to, y)])
    ensures Sent(cfg, bank, DoAll(b2, [SetFrac(from, x), SetFrac(to, y)]), reserve, from, to, amount)
  {
    ExtIsNatural(cfg, bank(to));
    BalancesAfter(cfg, bank(from), bank(to), bank(reserve), b2(from), b2(to), b2(reserve),
                  amount, i, f, x, y, borrow, carry);
    FractionsSet(cfg, b2, from, x, to, y);
    NowSent(cfg, bank, b2, DoAll(b2, [SetFrac(from, x), SetFrac(to, y)]), reserve, from, to, amount, x, y);
  }

  lemma NowSent(cfg: Config, bank: Bank, b2: Bank, after: Bank,
                reserve: Address, from: Address, to: Address, amount: nat, x: nat, y: nat)
    requires from != to && from != reserve && to != reserve && x < cfg.c && y < cfg.c
    requires forall a :: after(a) ==
               if a == from then Account(b2(a).whole, x) else if a == to then Account(b2(a).whole, y) else b2(a)
    requires forall a :: a != from && a != to && a != reserve ==> b2(a) == bank(a)
    requires b2(reserve).frac == bank(reserve).frac
    requires b2(from).whole * cfg.c + x == Ext(cfg, bank(from)) - amount
    requires b2(to).whole * cfg.c + y == Ext(cfg, bank(to)) + amount
    requires b2(reserve).whole * cfg.c - x - y == Surplus(cfg, bank, reserve, from, to)
    ensures Sent(cfg, bank, after, reserve, from, to, amount)
  {
    assert after(from) == Account(b2(from).whole, x) && after(to) == Account(b2(to).whole, y);
    assert after(reserve) == b2(reserve);
  }

  lemma SendInPhases(cfg: Config, bank: Bank, reserve: Address, from: Address, to: Address,
                     amount: nat, i: nat, f: nat)
    requires Ready(cfg, bank, reserve, from, to) && from != to && from != reserve && to != reserve && f < cfg.c
    requires i <= bank(from).whole && amount == i * cfg.c + f && f == amount % cfg.c
    ensures var (x, borrow) := SubFraction(cfg.c, bank(from).frac, f);
            var (y, carry) := AddFraction(cfg.c, bank(to).frac, f);
            var moves := Moving(reserve, from, to, i, borrow, carry);
            var steps := moves + [SetFrac(from, x), SetFrac(to, y)];
            && (CanAll(cfg, bank, steps) <==>
                  amount <= Ext(cfg, bank(from)) && ReserveGives(cfg.c, bank, reserve, from, to, amount))
            && (CanAll(cfg, bank, steps) ==> Sent(cfg, bank, DoAll(bank, steps), reserve, from, to, amount))
  {
    var (x, borrow) := SubFraction(cfg.c, bank(from).frac, f);
    var (y, carry) := AddFraction(cfg.c, bank(to).frac, f);
    EnoughCoins(cfg.c, bank(from).whole, bank(from).frac, i, f);
    Monotone(i, bank(from).whole, cfg.c);
    var moves := Moving(reserve, from, to, i, borrow, carry);
    IntegersMove(cfg, bank, reserve, from, to, i, borrow, carry);
    DoInTurn(cfg, bank, moves, [SetFrac(from, x), SetFrac(to, y)]);
    if Funded(bank, reserve, from, i, borrow, carry) {
      FractionsFinishTheSend(cfg, bank, DoAll(bank, moves), reserve, from, to, amount, i, f, x, y, borrow, carry);
    }
  }

  // A send between two accounts goes through exactly when the sender's balance covers the amount and the reserve
  // can give a coin if it has to; it then moves exactly that amount.
  lemma SendIsExact(cfg: Config, bank: Bank, reserve: Address, from: Address, to: Address,
                    amount: nat)
    requires Ready(cfg, bank, reserve, from, to) && from != to && from != reserve && to != reserve
    ensures var steps := SendSteps(cfg.c, bank, reserve, from, to, amount);
            && (CanAll(cfg, bank, steps) <==>
                  amount <= Ext(cfg, bank(from)) && ReserveGives(cfg.c, bank, reserve, from, to, amount))
            && (CanAll(cfg, bank, steps) ==> Sent(cfg, bank, DoAll(bank, steps), reserve, from, to, amount))
  {
    QuotientAndRemainder(amount, cfg.c);
    var i: nat, f: nat := amount / cfg.c, amount % cfg.c;
    if i <= bank(from).whole {
      SendInPhases(cfg, bank, reserve, from, to, amount, i, f);
    } else {
      OverdrawnSendFails(cfg, bank, reserve, from, to, i, f);
    }
  }

  lemma OverdrawnSendFails(cfg: Config, bank: Bank, reserve: Address, from: Address, to: Address,
                           i: nat, f: nat)
    requires cfg.c >= 1 && bank(from).frac < cfg.c && bank(to).frac < cfg.c && f < cfg.c && i > bank(from).whole
    ensures i * cfg.c + f > Ext(cfg, bank(from))
    ensures var (x, borrow) := SubFraction(cfg.c, bank(from).frac, f);
            var (y, carry) := AddFraction(cfg.c, bank(to).frac, f);
            var moves := Moving(reserve, from, to, i, borrow, carry);
            !CanAll(cfg, bank, moves + [SetFrac(from, x), SetFrac(to, y)])
  {
    EnoughCoins(cfg.c, bank(from).whole, bank(from).frac, i, f);
    var (x, borrow) := SubFraction(cfg.c, bank(from).frac, f);
    var (y, carry) := AddFraction(cfg.c, bank(to).frac, f);
    var direct := TransferSteps(from, to, i + One(borrow && carry));
    var settle := Settlement(reserve, from, to, borrow, carry);
    var fractions := [SetFrac(from, x), SetFrac(to, y)];
    assert direct + settle + fractions == direct + (settle + fractions);
    OverdraftFails(cfg, bank, from, to, i + One(borrow && carry), settle + fractions);
  }

  // ---------- All sends ----------

  // What a send moves: nothing to oneself, whole coins only when the reserve account takes part.
  function Moves(c: nat, reserve: Address, from: Address, to: Address, amount: nat): int
    requires c >= 1
  {
    if from == to then 0 else if from == reserve || to == reserve then amount / c * c else amount
  }

  // What a send needs.
  predicate Affordable(cfg: Config, bank: Bank, reserve: Address, from: Address, to: Address, amount: nat)
    requires cfg.c >= 1
  {
    if from == reserve || to == reserve then amount / cfg.c <= bank(from).whole
    else from == to || (amount <= Ext(cfg, bank(from)) && ReserveGives(cfg.c, bank, reserve, from, to, amount))
  }

  // m has gone from the sender to the receiver, and every other balance but the reserve's is as it was.
  ghost predicate Shifted(cfg: Config, bank: Bank, after: Bank, reserve: Address, from: Address, to: Address, m: int) {
    forall x :: x != reserve ==>
      Ext(cfg, after(x)) == Ext(cfg, bank(x)) - (if x == from then m else 0) + (if x == to then m else 0)
  }

  // The steps can be taken exactly when they should, and then shift m.
  ghost predicate Outcome(cfg: Config, bank: Bank, reserve: Address, from: Address, to: Address,
                          steps: seq<Step>, affordable: bool, m: int)
  {
    && (CanAll(cfg, bank, steps) <==> affordable)
    && (affordable ==> Shifted(cfg, bank, DoAll(bank, steps), reserve, from, to, m))
  }

  lemma ReserveOutcome(cfg: Config, bank: Bank, reserve: Address, from: Address, to: Address, n: nat)
    requires Ready(cfg, bank, reserve, from, to)
    ensures Outcome(cfg, bank, reserve, from, to, TransferSteps(from, to, n), n <= bank(from).whole,
                    if from == to then 0 else n * cfg.c)
  {
    ReserveSendMovesCoins(cfg, bank, from, to, n);
  }

  lemma PairOutcome(cfg: Config, bank: Bank, reserve: Address, from: Address, to: Address,
                    amount: nat)
    requires Ready(cfg, bank, reserve, from, to) && from != to && from != reserve && to != reserve
    ensures Outcome(cfg, bank, reserve, from, to, SendSteps(cfg.c, bank, reserve, from, to, amount),
                    amount <= Ext(cfg, bank(from)) && ReserveGives(cfg.c, bank, reserve, from, to, amount), amount)
  {
    var steps := SendSteps(cfg.c, bank, reserve, from, to, amount);
    SendIsExact(cfg, bank, reserve, from, to, amount);
    if CanAll(cfg, bank, steps) {
      SentIsShifted(cfg, bank, DoAll(bank, steps), reserve, from, to, amount);
    }
  }

  // Every send goes through exactly when it is affordable, and then shifts what it moves.
  lemma EverySend(cfg: Config, bank: Bank, reserve: Address, from: Address, to: Address, amount: nat)
    requires Ready(cfg, bank, reserve, from, to)
    ensures Outcome(cfg, bank, reserve, from, to, SendSteps(cfg.c, bank, reserve, from, to, amount),
                    Affordable(cfg, bank, reserve, from, to, amount), Moves(cfg.c, reserve, from, to, amount))
  {
    if from == reserve || to == reserve {
      QuotientAndRemainder(amount, cfg.c);
      var n: nat := amount / cfg.c;
      ReserveOutcome(cfg, bank, reserve, from, to, n);
      assert SendSteps(cfg.c, bank, reserve, from, to, amount) == TransferSteps(from, to, n);
      assert Moves(cfg.c, reserve, from, to, amount) == if from == to then 0 else n * cfg.c;
    } else if from != to {
      PairOutcome(cfg, bank, reserve, from, to, amount);
    }
  }

  lemma SentIsShifted(cfg: Config, bank: Bank, after: Bank, reserve: Address, from: Address,
                      to: Address,
                      amount: nat)
    requires Sent(cfg, bank, after, reserve, from, to, amount) && from != to
    ensures Shifted(cfg, bank, after, reserve, from, to, amount)
  {
  }

  lemma ReserveSendMovesCoins(cfg: Config, bank: Bank, from: Address, to: Address, n: nat)
    requires cfg.c >= 1 && Ext(cfg, bank(from)) + Ext(cfg, bank(to)) < MAX256
    ensures CanAll(cfg, bank, TransferSteps(from, to, n)) <==> n <= bank(from).whole
    ensures n <= bank(from).whole ==>
              forall x :: Ext(cfg, DoAll(bank, TransferSteps(from, to, n))(x)) ==
                Ext(cfg, bank(x)) - (if x == from && from != to then n * cfg.c else 0)
                + (if x == to && from != to then n * cfg.c else 0)
  {
    if n > bank(from).whole {
      OverdraftFails(cfg, bank, from, to, n, []);
      assert TransferSteps(from, to, n) + [] == TransferSteps(from, to, n);
    } else {
      Monotone(n, bank(from).whole, cfg.c);
      Distribute(bank(from).whole, n, cfg.c);
      Distribute(bank(to).whole, n, cfg.c);
      if from != to {
        TransferMoves(cfg, bank, from, to, n);
      } else if n > 0 {
        TwoSteps(cfg, bank, TransferSteps(from, to, n));
      }
    }
  }
}
