/** Any number of sends among any number of accounts: when the reserve of x/precisebank backs the sum of all
    fractional balances. */
module ReserveBacking {
  import opened Arithmetic
  import opened Common
  import opened StateJournal
  import opened BalanceMirror
  import opened PreciseBank

  // ---------- Sums over accounts ----------

  ghost function Sum(f: Address -> int, accounts: seq<Address>): int {
    if accounts == [] then 0 else f(accounts[0]) + Sum(f, accounts[1..])
  }

  ghost predicate Distinct(accounts: seq<Address>) {
    forall i, j :: 0 <= i < j < |accounts| ==> accounts[i] != accounts[j]
  }

  lemma {:induction false} SumUnchanged(f: Address -> int, g: Address -> int, accounts: seq<Address>)
    requires forall x :: x in accounts ==> g(x) == f(x)
    ensures Sum(g, accounts) == Sum(f, accounts)
  {
    if accounts != [] {
      SumUnchanged(f, g, accounts[1..]);
    }
  }

  lemma {:induction false} SumOneChanged(f: Address -> int, g: Address -> int, accounts: seq<Address>, a: Address)
    requires Distinct(accounts) && a in accounts && forall x :: x in accounts && x != a ==> g(x) == f(x)
    ensures Sum(g, accounts) == Sum(f, accounts) + g(a) - f(a)
  {
    var rest := accounts[1..];
    assert accounts == [accounts[0]] + rest;
    if accounts[0] == a {
      assert a !in rest;
      SumUnchanged(f, g, rest);
    } else {
      SumOneChanged(f, g, rest, a);
    }
  }

  // Two entries change: the sum changes by both differences.
  lemma {:induction false} SumTwoChanged(f: Address -> int, g: Address -> int, accounts: seq<Address>, a: Address,
                                         b: Address)
    requires Distinct(accounts) && a in accounts && b in accounts && a != b
    requires forall x :: x in accounts && x != a && x != b ==> g(x) == f(x)
    ensures Sum(g, accounts) == Sum(f, accounts) + g(a) - f(a) + g(b) - f(b)
  {
    var rest := accounts[1..];
    assert accounts == [accounts[0]] + rest;
    if accounts[0] == a {
      assert a !in rest;
      SumOneChanged(f, g, rest, b);
    } else if accounts[0] == b {
      assert b !in rest;
      SumOneChanged(f, g, rest, a);
    } else {
      SumTwoChanged(f, g, rest, a, b);
    }
  }

  lemma {:induction false} OneBelowSum(f: Address -> int, accounts: seq<Address>, a: Address)
    requires (forall x :: x in accounts ==> f(x) >= 0) && a in accounts
    ensures Sum(f, accounts) >= f(a) >= 0
  {
    SumIsNatural(f, accounts[1..]);
    if accounts[0] != a {
      assert accounts == [accounts[0]] + accounts[1..];
      OneBelowSum(f, accounts[1..], a);
    }
  }

  lemma {:induction false} SumIsNatural(f: Address -> int, accounts: seq<Address>)
    requires forall x :: x in accounts ==> f(x) >= 0
    ensures Sum(f, accounts) >= 0
  {
    if accounts != [] {
      SumIsNatural(f, accounts[1..]);
    }
  }

  lemma {:induction false} TwoBelowSum(f: Address -> int, accounts: seq<Address>, a: Address, b: Address)
    requires (forall x :: x in accounts ==> f(x) >= 0) && a in accounts && b in accounts && a != b
    ensures Sum(f, accounts) >= f(a) + f(b)
  {
    var rest := accounts[1..];
    assert accounts == [accounts[0]] + rest;
    if accounts[0] == a {
      OneBelowSum(f, rest, b);
    } else if accounts[0] == b {
      OneBelowSum(f, rest, a);
    } else {
      TwoBelowSum(f, rest, a, b);
    }
  }

  lemma {:induction false} SumOfSums(f: Address -> int, g: Address -> int, h: Address -> int, accounts: seq<Address>)
    requires forall x :: x in accounts ==> f(x) == g(x) + h(x)
    ensures Sum(f, accounts) == Sum(g, accounts) + Sum(h, accounts)
  {
    if accounts != [] {
      SumOfSums(f, g, h, accounts[1..]);
    }
  }

  // ---------- The reserve ----------

  ghost function Fractions(bank: Bank, holders: seq<Address>): int {
    Sum((x: Address) => bank(x).frac, holders)
  }

  ghost function Supply(cfg: Config, bank: Bank, holders: seq<Address>): int {
    Sum((x: Address) => Ext(cfg, bank(x)), holders)
  }

  // What the reserve holds beyond the fractions of all holders; negative when it does not back them.
  ghost function Remainder(cfg: Config, bank: Bank, reserve: Address, holders: seq<Address>): int {
    bank(reserve).whole * cfg.c - Fractions(bank, holders)
  }

  // All fractions are below one coin, and no balance can come near 2^256.
  ghost predicate Sound(cfg: Config, bank: Bank, reserve: Address, holders: seq<Address>) {
    && cfg.c >= 1 && Distinct(holders) && reserve !in holders
    && bank(reserve).frac < cfg.c && (forall x :: x in holders ==> bank(x).frac < cfg.c)
    && Supply(cfg, bank, holders) + Remainder(cfg, bank, reserve, holders) + 6 * cfg.c < MAX256
  }

  // The reserve backs all fractions.
  ghost predicate Backed(cfg: Config, bank: Bank, reserve: Address, holders: seq<Address>) {
    Remainder(cfg, bank, reserve, holders) >= 0
  }

  datatype Transfer = Transfer(from: Address, to: Address, amount: nat)

  ghost predicate Known(t: Transfer, reserve: Address, holders: seq<Address>) {
    (t.from == reserve || t.from in holders) && (t.to == reserve || t.to in holders)
  }

  // A send that fails leaves the bank as it was.
  ghost function Perform(cfg: Config, bank: Bank, reserve: Address, t: Transfer): Bank
    requires cfg.c >= 1 && bank(t.from).frac < cfg.c && bank(t.to).frac < cfg.c
  {
    var steps := SendSteps(cfg.c, bank, reserve, t.from, t.to, t.amount);
    if CanAll(cfg, bank, steps) then DoAll(bank, steps) else bank
  }

  // The coins that the reserve pays to the holders when it takes part in a send; negative when it receives.
  ghost function PaidOut(cfg: Config, bank: Bank, reserve: Address, t: Transfer): int
    requires cfg.c >= 1
  {
    if t.from == t.to || t.amount / cfg.c > bank(t.from).whole then 0
    else if t.from == reserve then t.amount / cfg.c * cfg.c
    else if t.to == reserve then -(t.amount / cfg.c * cfg.c)
    else 0
  }

  // Whole coins alone make up the supply and the remainder.
  lemma CoinsAreTotal(cfg: Config, bank: Bank, reserve: Address, holders: seq<Address>)
    ensures Supply(cfg, bank, holders) + Remainder(cfg, bank, reserve, holders)
            == Sum((x: Address) => bank(x).whole * cfg.c, holders) + bank(reserve).whole * cfg.c
  {
    SumOfSums((x: Address) => Ext(cfg, bank(x)), (x: Address) => bank(x).whole * cfg.c, (x: Address) => bank(x).frac,
              holders);
  }

  lemma SoundIsReady(cfg: Config, bank: Bank, reserve: Address, holders: seq<Address>, t: Transfer)
    requires Sound(cfg, bank, reserve, holders) && Known(t, reserve, holders)
    ensures Ready(cfg, bank, reserve, t.from, t.to) || t.from == t.to
    ensures bank(t.from).frac < cfg.c && bank(t.to).frac < cfg.c
  {
    CoinsAreTotal(cfg, bank, reserve, holders);
    var coins := (x: Address) => bank(x).whole * cfg.c;
    forall x ensures coins(x) >= 0 {
      Monotone(0, bank(x).whole, cfg.c);
    }
    SumIsNatural(coins, holders);
    if t.from in holders {
      OneBelowSum(coins, holders, t.from);
    }
    if t.to in holders {
      OneBelowSum(coins, holders, t.to);
    }
    if t.from in holders && t.to in holders && t.from != t.to {
      TwoBelowSum(coins, holders, t.from, t.to);
    }
    assert Ext(cfg, bank(t.from)) == coins(t.from) + bank(t.from).frac;
    assert Ext(cfg, bank(t.to)) == coins(t.to) + bank(t.to).frac;
    assert Ext(cfg, bank(reserve)) == coins(reserve) + bank(reserve).frac;
  }

  // Every send, the reserve's own included, turns what the reserve pays out from remainder into supply and keeps
  // the fractions below one coin.
  lemma SendKeepsTotal(cfg: Config, bank: Bank, reserve: Address, holders: seq<Address>, t: Transfer)
    requires Sound(cfg, bank, reserve, holders) && Known(t, reserve, holders)
    ensures bank(t.from).frac < cfg.c && bank(t.to).frac < cfg.c
    ensures var after, paid := Perform(cfg, bank, reserve, t), PaidOut(cfg, bank, reserve, t);
            && Sound(cfg, after, reserve, holders)
            && Supply(cfg, after, holders) == Supply(cfg, bank, holders) + paid
            && Remainder(cfg, after, reserve, holders) == Remainder(cfg, bank, reserve, holders) - paid
  {
    SoundIsReady(cfg, bank, reserve, holders, t);
    var steps := SendSteps(cfg.c, bank, reserve, t.from, t.to, t.amount);
    var after := Perform(cfg, bank, reserve, t);
    if t.from == t.to {
      SendToOneself(cfg, bank, reserve, t);
      SumUnchanged((x: Address) => bank(x).frac, (x: Address) => after(x).frac, holders);
      SumUnchanged((x: Address) => Ext(cfg, bank(x)), (x: Address) => Ext(cfg, after(x)), holders);
    } else if t.from == reserve || t.to == reserve {
      ReserveSendKeepsTotal(cfg, bank, reserve, holders, t);
    } else if CanAll(cfg, bank, steps) {
      SendIsExact(cfg, bank, reserve, t.from, t.to, t.amount);
      SentKeepsSums(cfg, bank, after, reserve, holders, t);
    }
  }

  lemma SendToOneself(cfg: Config, bank: Bank, reserve: Address, t: Transfer)
    requires cfg.c >= 1 && t.from == t.to && bank(t.from).frac < cfg.c
    ensures forall x :: Perform(cfg, bank, reserve, t)(x) == bank(x)
  {
    var steps := SendSteps(cfg.c, bank, reserve, t.from, t.to, t.amount);
    if t.from == reserve && t.amount / cfg.c > 0 && CanAll(cfg, bank, steps) {
      TwoSteps(cfg, bank, steps);
    }
  }

  lemma ReserveSendKeepsTotal(cfg: Config, bank: Bank, reserve: Address, holders: seq<Address>, t: Transfer)
    requires Sound(cfg, bank, reserve, holders) && Known(t, reserve, holders) && t.from != t.to
    requires (t.from == reserve || t.to == reserve) && Ready(cfg, bank, reserve, t.from, t.to)
    ensures var after, paid := Perform(cfg, bank, reserve, t), PaidOut(cfg, bank, reserve, t);
            && Sound(cfg, after, reserve, holders)
            && Supply(cfg, after, holders) == Supply(cfg, bank, holders) + paid
            && Remainder(cfg, after, reserve, holders) == Remainder(cfg, bank, reserve, holders) - paid
  {
    QuotientAndRemainder(t.amount, cfg.c);
    var n: nat := t.amount / cfg.c;
    var after := Perform(cfg, bank, reserve, t);
    ReserveSendMovesCoins(cfg, bank, t.from, t.to, n);
    if n <= bank(t.from).whole {
      CoinsMoved(cfg, bank, t.from, t.to, n);
      var holder := if t.from == reserve then t.to else t.from;
      SumUnchanged((x: Address) => bank(x).frac, (x: Address) => after(x).frac, holders);
      SumOneChanged((x: Address) => Ext(cfg, bank(x)), (x: Address) => Ext(cfg, after(x)), holders, holder);
    }
  }

  // A transfer of whole coins touches no fraction.
  lemma CoinsMoved(cfg: Config, bank: Bank, from: Address, to: Address, n: nat)
    requires from != to && n <= bank(from).whole
    ensures Moved(bank, DoAll(bank, TransferSteps(from, to, n)), from, to, n)
  {
    if n > 0 {
      TwoSteps(cfg, bank, TransferSteps(from, to, n));
    }
  }

  lemma SentKeepsSums(cfg: Config, bank: Bank, after: Bank, reserve: Address, holders: seq<Address>, t: Transfer)
    requires Distinct(holders) && reserve !in holders && t.from in holders && t.to in holders && t.from != t.to
    requires Sent(cfg, bank, after, reserve, t.from, t.to, t.amount)
    ensures Supply(cfg, after, holders) == Supply(cfg, bank, holders)
    ensures Remainder(cfg, after, reserve, holders) == Remainder(cfg, bank, reserve, holders)
  {
    SumTwoChanged((x: Address) => bank(x).frac, (x: Address) => after(x).frac, holders, t.from, t.to);
    SumTwoChanged((x: Address) => Ext(cfg, bank(x)), (x: Address) => Ext(cfg, after(x)), holders, t.from, t.to);
  }

  // ---------- Runs ----------

  // states[k] is the bank before transfer k.
  ghost predicate IsRun(cfg: Config, states: seq<Bank>, transfers: seq<Transfer>, reserve: Address,
                        holders: seq<Address>) {
    && |states| == |transfers| + 1 && Sound(cfg, states[0], reserve, holders)
    && forall k :: 0 <= k < |transfers| ==>
         && Known(transfers[k], reserve, holders)
         && states[k](transfers[k].from).frac < cfg.c && states[k](transfers[k].to).frac < cfg.c
         && states[k+1] == Perform(cfg, states[k], reserve, transfers[k])
  }

  // What the reserve has paid out, net of what it received, in the first k transfers of a run.
  ghost function NetPaid(cfg: Config, states: seq<Bank>, transfers: seq<Transfer>, reserve: Address, k: nat): int
    requires cfg.c >= 1 && k <= |transfers| && |states| == |transfers| + 1
  {
    if k == 0 then 0
    else NetPaid(cfg, states, transfers, reserve, k - 1) + PaidOut(cfg, states[k-1], reserve, transfers[k-1])
  }

  // Over every run, sends of the reserve included, the holders' supply together with the remainder is constant,
  // and the reserve backs all fractions exactly while it has not paid out more than its first remainder.
  lemma {:induction false} RunsKeepTotal(cfg: Config, states: seq<Bank>, transfers: seq<Transfer>,
                                         reserve: Address, holders: seq<Address>, k: nat)
    requires IsRun(cfg, states, transfers, reserve, holders) && k < |states|
    ensures var first, now, net := states[0], states[k], NetPaid(cfg, states, transfers, reserve, k);
            && Sound(cfg, now, reserve, holders)
            && Supply(cfg, now, holders) == Supply(cfg, first, holders) + net
            && Remainder(cfg, now, reserve, holders) == Remainder(cfg, first, reserve, holders) - net
            && (Backed(cfg, now, reserve, holders) <==> net <= Remainder(cfg, first, reserve, holders))
  {
    if k > 0 {
      RunsKeepTotal(cfg, states, transfers, reserve, holders, k - 1);
      SendKeepsTotal(cfg, states[k-1], reserve, holders, transfers[k-1]);
    }
  }

  // A run in which only holders send pays nothing out, so that the backing lasts.
  lemma {:induction false} HoldersKeepBacking(cfg: Config, states: seq<Bank>, transfers: seq<Transfer>,
                                              reserve: Address, holders: seq<Address>, k: nat)
    requires IsRun(cfg, states, transfers, reserve, holders) && k < |states|
    requires forall j :: 0 <= j < k ==> transfers[j].from in holders && transfers[j].to in holders
    ensures NetPaid(cfg, states, transfers, reserve, k) == 0
    ensures Backed(cfg, states[k], reserve, holders) <==> Backed(cfg, states[0], reserve, holders)
  {
    RunsKeepTotal(cfg, states, transfers, reserve, holders, k);
    if k > 0 {
      HoldersKeepBacking(cfg, states, transfers, reserve, holders, k - 1);
    }
  }

  lemma BackedGives(cfg: Config, bank: Bank, reserve: Address, holders: seq<Address>, t: Transfer)
    requires cfg.c >= 1 && Backed(cfg, bank, reserve, holders)
    requires t.from in holders && t.to in holders && t.from != t.to
    ensures ReserveGives(cfg.c, bank, reserve, t.from, t.to, t.amount)
  {
    TwoBelowSum((x: Address) => bank(x).frac, holders, t.from, t.to);
    BackedReserveGives(cfg, bank, reserve, t.from, t.to, t.amount);
  }

  // In every run a send between two holders goes through exactly when the sender's balance covers it and the
  // reserve can give the coin it may ask for. The latter is sure while the reserve has not paid out more than
  // its first remainder.
  lemma EverySendOfARun(cfg: Config, states: seq<Bank>, transfers: seq<Transfer>, reserve: Address,
                        holders: seq<Address>, k: nat)
    requires IsRun(cfg, states, transfers, reserve, holders) && k < |transfers|
    requires transfers[k].from in holders && transfers[k].to in holders && transfers[k].from != transfers[k].to
    ensures var t, bank, after := transfers[k], states[k], states[k+1];
            && (if t.amount <= Ext(cfg, bank(t.from)) && ReserveGives(cfg.c, bank, reserve, t.from, t.to, t.amount)
                then Sent(cfg, bank, after, reserve, t.from, t.to, t.amount)
                else after == bank)
            && (NetPaid(cfg, states, transfers, reserve, k) <= Remainder(cfg, states[0], reserve, holders) ==>
                  ReserveGives(cfg.c, bank, reserve, t.from, t.to, t.amount))
  {
    RunsKeepTotal(cfg, states, transfers, reserve, holders, k);
    var t := transfers[k];
    SoundIsReady(cfg, states[k], reserve, holders, t);
    SendIsExact(cfg, states[k], reserve, t.from, t.to, t.amount);
    if Backed(cfg, states[k], reserve, holders) {
      BackedGives(cfg, states[k], reserve, holders, t);
    }
  }

  // ---------- A reserve that has paid out too much ----------

  // Six decimals: a coin is 10^12 units.
  const COIN: nat := 1_000_000_000_000
  const HALF: nat := 500_000_000_000

  // Holders 1 and 2 own half a coin each, which the coin of the reserve, account 0, backs.
  function Halves(a: Address): Account {
    if a == 0 then Account(1, 0) else if a == 1 || a == 2 then Account(0, HALF) else Account(0, 0)
  }

  // The reserve gives its coin to holder 3. Then holder 1 cannot send its half to holder 2, although it owns it.
  lemma EmptyReserveBlocksSend(cfg: Config)
    requires cfg.c == COIN
    ensures Sound(cfg, Halves, 0, [1, 2, 3]) && Backed(cfg, Halves, 0, [1, 2, 3])
    ensures var bank := Perform(cfg, Halves, 0, Transfer(0, 3, COIN));
            && bank(1) == Account(0, HALF) && bank(2) == Account(0, HALF)
            && Perform(cfg, bank, 0, Transfer(1, 2, HALF)) == bank
  {
    var holders: seq<Address> := [1, 2, 3];
    HalvesAreBacked(cfg);
    SendKeepsTotal(cfg, Halves, 0, holders, Transfer(0, 3, COIN));
    CoinsMoved(cfg, Halves, 0, 3, 1);
    SoundIsReady(cfg, Halves, 0, holders, Transfer(0, 3, COIN));
    ReserveSendMovesCoins(cfg, Halves, 0, 3, 1);
    var bank := Perform(cfg, Halves, 0, Transfer(0, 3, COIN));
    SoundIsReady(cfg, bank, 0, holders, Transfer(1, 2, HALF));
    SendIsExact(cfg, bank, 0, 1, 2, HALF);
  }

  lemma HalvesAreBacked(cfg: Config)
    requires cfg.c == COIN
    ensures Sound(cfg, Halves, 0, [1, 2, 3]) && Remainder(cfg, Halves, 0, [1, 2, 3]) == 0
  {
    var holders: seq<Address> := [1, 2, 3];
    ThreeTerms((x: Address) => Halves(x).frac, holders);
    ThreeTerms((x: Address) => Ext(cfg, Halves(x)), holders);
  }

  lemma ThreeTerms(f: Address -> int, accounts: seq<Address>)
    requires |accounts| == 3
    ensures Sum(f, accounts) == f(accounts[0]) + f(accounts[1]) + f(accounts[2])
  {
    assert accounts[1..][1..] == [accounts[2]] && Sum(f, [accounts[2]]) == f(accounts[2]);
    assert Sum(f, accounts[1..]) == f(accounts[1]) + Sum(f, accounts[1..][1..]);
  }
}
