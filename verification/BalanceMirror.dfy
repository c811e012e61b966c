/** Precompiles move coins in the bank; their events are replayed on the cached EVM balances
    (precompiles/common/balance_handler.go and precompile.go). */
module BalanceMirror {
  import opened Common
  import opened StateJournal

  // ---------- Bank steps and the events that mirror them ----------

  datatype Step =
    | Spend(addr: Address, n: nat)
    | Receive(addr: Address, n: nat)
    | SetFrac(addr: Address, frac: nat)
    | Emit

  // The balance in 18 decimals.
  function Ext(cfg: Config, acc: Account): int {
    acc.whole * cfg.c + acc.frac
  }

  function Update(bank: Bank, a: Address, acc: Account): Bank {
    (x: Address) => if x == a then acc else bank(x)
  }

  // The bank refuses to overdraw, keeps fractions below one coin, and no balance reaches 2^256.
  predicate Can(cfg: Config, bank: Bank, s: Step) {
    match s
    case Spend(a, n) => n <= bank(a).whole
    case Receive(a, n) => Ext(cfg, bank(a)) + n * cfg.c < MAX256
    case SetFrac(a, f) => f < cfg.c && bank(a).whole * cfg.c + f < MAX256
    case Emit => true
  }

  // The step's effect; spending more than there is cannot happen.
  function Do(bank: Bank, s: Step): Bank {
    match s
    case Spend(a, n) => Update(bank, a, Account(if n <= bank(a).whole then bank(a).whole - n else 0, bank(a).frac))
    case Receive(a, n) => Update(bank, a, Account(bank(a).whole + n, bank(a).frac))
    case SetFrac(a, f) => Update(bank, a, Account(bank(a).whole, f))
    case Emit => bank
  }

  function EventOf(bank: Bank, s: Step): Event {
    match s
    case Spend(a, n) => Spent(Some(a), Some(n))
    case Receive(a, n) => Received(Some(a), Some(n))
    case SetFrac(a, f) => Fractional(Some(a), Some(f - bank(a).frac))
    case Emit => OtherEvent
  }

  function DoAll(bank: Bank, steps: seq<Step>): Bank {
    if steps == [] then bank else DoAll(Do(bank, steps[0]), steps[1..])
  }

  function EventsOf(bank: Bank, steps: seq<Step>): seq<Event> {
    if steps == [] then [] else [EventOf(bank, steps[0])] + EventsOf(Do(bank, steps[0]), steps[1..])
  }

  predicate CanAll(cfg: Config, bank: Bank, steps: seq<Step>) {
    steps == [] || (Can(cfg, bank, steps[0]) && CanAll(cfg, Do(bank, steps[0]), steps[1..]))
  }

  // ---------- Replaying events ----------

  datatype Error = BadAddress | BadAmount

  // What an event asks of the EVM balances.
  datatype Change =
    | Skip
    | Plus(addr: Address, amount: uint256)
    | Minus(addr: Address, amount: uint256)
    | Bad(error: Error)

  function Scaled(cfg: Config, amount: Option<nat>): Option<uint256> {
    if amount.Some? && amount.value * cfg.c < MAX256 then Some(amount.value * cfg.c) else None
  }

  function ChangeOf(cfg: Config, e: Event): Change {
    if e.OtherEvent? then Skip
    else if e.addr.None? then Bad(BadAddress)
    else if cfg.blocked(e.addr.value) then Skip
    else
      match e
      case Spent(a, amount) =>
        var scaled := Scaled(cfg, amount);
        if scaled.None? then Bad(BadAmount) else Minus(a.value, scaled.value)
      case Received(a, amount) =>
        var scaled := Scaled(cfg, amount);
        if scaled.None? then Bad(BadAmount) else Plus(a.value, scaled.value)
      case Fractional(a, delta) =>
        if delta.None? || delta.value >= MAX256 || -delta.value >= MAX256 then Bad(BadAmount)
        else if delta.value > 0 then Plus(a.value, delta.value)
        else if delta.value < 0 then Minus(a.value, -delta.value)
        else Skip
  }

  function Apply(cfg: Config, w: World, change: Change): (r: (World, Option<Error>))
    ensures r.0.events == w.events && r.0.applied == w.applied && r.0.bank == w.bank && r.0.revisions == w.revisions
  {
    match change
    case Skip => (w, None)
    case Plus(a, amount) => (AddBalance(cfg, w, a, amount), None)
    case Minus(a, amount) => (SubBalance(cfg, w, a, amount), None)
    case Bad(error) => (w, Some(error))
  }

  // AfterBalanceChange, from event i on.
  function Replay(cfg: Config, w: World, i: nat): (r: (World, Option<Error>))
    requires i <= |w.events|
    ensures r.0.bank == w.bank && r.0.revisions == w.revisions && r.0.events == w.events
    decreases |w.events| - i
  {
    if i == |w.events| then (w, None)
    else
      var (w', err) := Apply(cfg, w, ChangeOf(cfg, w.events[i]));
      if err.Some? then (w', err) else Replay(cfg, w'.(applied := w'.applied + [i]), i + 1)
  }

  ghost predicate NoWrap(cfg: Config, w: World, change: Change) {
    && (change.Plus? ==> Balance(cfg, w, change.addr) + change.amount < MAX256)
    && (change.Minus? ==> change.amount <= Balance(cfg, w, change.addr))
  }

  // No sum or difference in the replay from event i on wraps around.
  ghost predicate NeverWraps(cfg: Config, w: World, i: nat)
    requires i <= |w.events|
    decreases |w.events| - i
  {
    i < |w.events| ==>
      var change := ChangeOf(cfg, w.events[i]);
      var (w', err) := Apply(cfg, w, change);
      NoWrap(cfg, w, change) && (err.None? ==> NeverWraps(cfg, w'.(applied := w'.applied + [i]), i + 1))
  }

  // The EVM balances of all unblocked addresses are those of the bank.
  ghost predicate Mirrors(cfg: Config, w: World, bank: Bank) {
    forall a :: !cfg.blocked(a) ==> Balance(cfg, w, a) == Ext(cfg, bank(a))
  }

  lemma TouchKeepsBalances(cfg: Config, w: World, a: Address)
    requires cfg.Valid()
    ensures forall x :: Balance(cfg, Touch(cfg, w, a), x) == Balance(cfg, w, x)
  {
  }

  lemma TouchAndSetRestores(cfg: Config, w: World, a: Address, v: uint256)
    ensures Restores(cfg, SetBalance(cfg, Touch(cfg, w, a), a, v), w)
  {
    var w1 := Touch(cfg, w, a);
    TouchRestores(cfg, w, a);
    SetBalanceRestores(cfg, w1, a, v);
    RestoresThrough(cfg, SetBalance(cfg, w1, a, v), w1, w);
  }

  lemma AddRestores(cfg: Config, w: World, a: Address, amount: uint256)
    ensures Restores(cfg, AddBalance(cfg, w, a, amount), w)
  {
    if amount == 0 {
      TouchRestores(cfg, w, a);
    } else {
      var v := Wrap(Balance(cfg, Touch(cfg, w, a), a) + amount);
      TouchAndSetRestores(cfg, w, a, v);
      assert AddBalance(cfg, w, a, amount) == SetBalance(cfg, Touch(cfg, w, a), a, v);
    }
  }

  lemma SubRestores(cfg: Config, w: World, a: Address, amount: uint256)
    ensures Restores(cfg, SubBalance(cfg, w, a, amount), w)
  {
    if amount == 0 {
      TouchRestores(cfg, w, a);
    } else {
      var v := Wrap(Balance(cfg, Touch(cfg, w, a), a) - amount);
      TouchAndSetRestores(cfg, w, a, v);
      assert SubBalance(cfg, w, a, amount) == SetBalance(cfg, Touch(cfg, w, a), a, v);
    }
  }

  lemma AddChangesOne(cfg: Config, w: World, a: Address, amount: uint256)
    requires cfg.Valid()
    ensures Balance(cfg, w, a) + amount < MAX256 ==>
              forall x :: Balance(cfg, AddBalance(cfg, w, a, amount), x) ==
                if x == a then Balance(cfg, w, a) + amount else Balance(cfg, w, x)
    ensures amount <= Balance(cfg, w, a) ==>
              forall x :: Balance(cfg, SubBalance(cfg, w, a, amount), x) ==
                if x == a then Balance(cfg, w, a) - amount else Balance(cfg, w, x)
  {
    TouchKeepsBalances(cfg, w, a);
  }

  lemma StepChangesExt(cfg: Config, bank: Bank, s: Step)
    requires Can(cfg, bank, s) && !s.Emit?
    ensures var after := Ext(cfg, Do(bank, s)(s.addr));
            && (s.Spend? ==> s.n * cfg.c <= Ext(cfg, bank(s.addr)) && after == Ext(cfg, bank(s.addr)) - s.n * cfg.c)
            && (s.Receive? ==> after == Ext(cfg, bank(s.addr)) + s.n * cfg.c)
            && (s.SetFrac? ==> after == Ext(cfg, bank(s.addr)) + (s.frac - bank(s.addr).frac))
  {
    match s
    case Spend(a, n) =>
      assert bank(a).whole * cfg.c == (bank(a).whole - n) * cfg.c + n * cfg.c;
      assert (bank(a).whole - n) * cfg.c >= 0;
    case Receive(a, n) =>
      assert (bank(a).whole + n) * cfg.c == bank(a).whole * cfg.c + n * cfg.c;
    case SetFrac(_, _) =>
  }

  lemma MirrorsUpdate(cfg: Config, w: World, w': World, bank: Bank, a: Address, acc: Account)
    requires Mirrors(cfg, w, bank)
    requires forall x :: Balance(cfg, w', x) == if x == a then Ext(cfg, acc) else Balance(cfg, w, x)
    ensures Mirrors(cfg, w', Update(bank, a, acc))
  {
  }

  ghost function Signed(change: Change): int {
    match change
    case Plus(_, amount) => amount
    case Minus(_, amount) => 0 - amount
    case _ => 0
  }

  // The event of a bank step says exactly how the balance changes.
  lemma EventTellsTheStep(cfg: Config, bank: Bank, s: Step)
    requires Can(cfg, bank, s) && !s.Emit? && !cfg.blocked(s.addr) && Ext(cfg, bank(s.addr)) < MAX256
    ensures var change := ChangeOf(cfg, EventOf(bank, s));
            && !change.Bad? && (change.Plus? || change.Minus? ==> change.addr == s.addr)
            && Ext(cfg, Do(bank, s)(s.addr)) == Ext(cfg, bank(s.addr)) + Signed(change)
  {
    StepChangesExt(cfg, bank, s);
  }

  lemma ChangesOne(cfg: Config, w: World, change: Change, a: Address)
    requires cfg.Valid() && NoWrap(cfg, w, change) && (change.Plus? || change.Minus? ==> change.addr == a)
    ensures forall x :: Balance(cfg, Apply(cfg, w, change).0, x) ==
              if x == a then Balance(cfg, w, a) + Signed(change) else Balance(cfg, w, x)
  {
    if change.Plus? || change.Minus? {
      AddChangesOne(cfg, w, a, change.amount);
    }
  }

  // A bank step and the replay of its event move the EVM balance and the bank balance alike.
  lemma ApplyMirrors(cfg: Config, w: World, bank: Bank, s: Step)
    requires cfg.Valid() && Mirrors(cfg, w, bank) && Can(cfg, bank, s)
    ensures var change := ChangeOf(cfg, EventOf(bank, s));
            var (w', err) := Apply(cfg, w, change);
            err.None? && NoWrap(cfg, w, change) && Mirrors(cfg, w', Do(bank, s))
  {
    if !s.Emit? && !cfg.blocked(s.addr) {
      var change := ChangeOf(cfg, EventOf(bank, s));
      assert Balance(cfg, w, s.addr) == Ext(cfg, bank(s.addr));
      EventTellsTheStep(cfg, bank, s);
      assert 0 <= Ext(cfg, Do(bank, s)(s.addr)) < MAX256 by {
        StepChangesExt(cfg, bank, s);
      }
      ChangesOne(cfg, w, change, s.addr);
      MirrorsUpdate(cfg, w, Apply(cfg, w, change).0, bank, s.addr, Do(bank, s)(s.addr));
    }
  }

  lemma ApplyRestores(cfg: Config, w: World, change: Change)
    ensures Restores(cfg, Apply(cfg, w, change).0, w)
  {
    match change
    case Plus(a, amount) => AddRestores(cfg, w, a, amount);
    case Minus(a, amount) => SubRestores(cfg, w, a, amount);
    case _ =>
  }

  // Replaying the events of an action that ran on a mirrored bank mirrors the bank it left.
  lemma {:induction false} ReplayMirrors(cfg: Config, w: World, i: nat, bank: Bank, steps: seq<Step>)
    requires cfg.Valid() && Mirrors(cfg, w, bank) && CanAll(cfg, bank, steps)
    requires i <= |w.events| && w.events[i..] == EventsOf(bank, steps)
    ensures var (w', err) := Replay(cfg, w, i);
            && err.None? && NeverWraps(cfg, w, i) && Mirrors(cfg, w', DoAll(bank, steps))
    decreases |steps|
  {
    if steps != [] {
      assert w.events[i] == w.events[i..][0];
      ApplyMirrors(cfg, w, bank, steps[0]);
      var w1 := Apply(cfg, w, ChangeOf(cfg, w.events[i])).0;
      var w2 := w1.(applied := w1.applied + [i]);
      assert forall a :: Balance(cfg, w2, a) == Balance(cfg, w1, a);
      assert w2.events[i + 1..] == w.events[i..][1..];
      ReplayMirrors(cfg, w2, i + 1, Do(bank, steps[0]), steps[1..]);
    }
  }

  lemma {:induction false} ReplayRestores(cfg: Config, w: World, i: nat)
    requires i <= |w.events|
    ensures Restores(cfg, Replay(cfg, w, i).0, w)
    decreases |w.events| - i
  {
    if i < |w.events| {
      var (w1, err) := Apply(cfg, w, ChangeOf(cfg, w.events[i]));
      ApplyRestores(cfg, w, ChangeOf(cfg, w.events[i]));
      if err.None? {
        var w2 := w1.(applied := w1.applied + [i]);
        SameUndoTo(cfg, w2, w1, |w.journal|);
        ReplayRestores(cfg, w2, i + 1);
        RestoresThrough(cfg, Replay(cfg, w2, i + 1).0, w2, w);
      }
    }
  }

  // The numbers from lo up to hi.
  function Range(lo: nat, hi: nat): seq<nat>
    decreases hi - lo
  {
    if lo >= hi then [] else [lo] + Range(lo + 1, hi)
  }

  // A successful replay applies every event from i on, in order; a failed one applies the first few.
  lemma {:induction false} ReplayAppliesInOrder(cfg: Config, w: World, i: nat)
    requires i <= |w.events|
    ensures var (w', err) := Replay(cfg, w, i);
            && w'.applied <= w.applied + Range(i, |w.events|)
            && (err.None? ==> w'.applied == w.applied + Range(i, |w.events|))
    decreases |w.events| - i
  {
    if i < |w.events| {
      var (w1, err) := Apply(cfg, w, ChangeOf(cfg, w.events[i]));
      if err.None? {
        var w2 := w1.(applied := w1.applied + [i]);
        ReplayAppliesInOrder(cfg, w2, i + 1);
        assert w.applied + ([i] + Range(i + 1, |w.events|)) == w2.applied + Range(i + 1, |w.events|);
      }
    }
  }

  // ---------- What a replay adds up to ----------

  // An event that the handler can read: a blocked address needs no amount.
  ghost predicate Readable(cfg: Config, e: Event) {
    match e
    case OtherEvent => true
    case Spent(a, n) => a.Some? && (cfg.blocked(a.value) || (n.Some? && n.value * cfg.c < MAX256))
    case Received(a, n) => a.Some? && (cfg.blocked(a.value) || (n.Some? && n.value * cfg.c < MAX256))
    case Fractional(a, d) => a.Some? && (cfg.blocked(a.value) || (d.Some? && d.value < MAX256 && -d.value < MAX256))
  }

  // How much an event says the balance of x grew, in 18 decimals; nothing for a blocked address.
  ghost function Growth(cfg: Config, e: Event, x: Address): int
    requires Readable(cfg, e)
  {
    if e.OtherEvent? || e.addr != Some(x) || cfg.blocked(x) then 0
    else
      match e
      case Spent(_, n) => -(n.value * cfg.c)
      case Received(_, n) => n.value * cfg.c
      case Fractional(_, d) => d.value
  }

  // The growth of x over events i and later.
  ghost function TotalGrowth(cfg: Config, events: seq<Event>, i: nat, x: Address): int
    requires i <= |events| && forall k :: i <= k < |events| ==> Readable(cfg, events[k])
    decreases |events| - i
  {
    if i == |events| then 0 else Growth(cfg, events[i], x) + TotalGrowth(cfg, events, i + 1, x)
  }

  lemma ApplyGrows(cfg: Config, w: World, e: Event, x: Address)
    requires cfg.Valid()
    ensures Apply(cfg, w, ChangeOf(cfg, e)).1.None? <==> Readable(cfg, e)
    ensures Readable(cfg, e) ==>
              Balance(cfg, Apply(cfg, w, ChangeOf(cfg, e)).0, x) == Wrap(Balance(cfg, w, x) + Growth(cfg, e, x))
  {
    var change := ChangeOf(cfg, e);
    ReadableChange(cfg, e, x);
    if change.Plus? || change.Minus? {
      TouchKeepsBalances(cfg, w, change.addr);
    }
  }

  lemma ReadableChange(cfg: Config, e: Event, x: Address)
    ensures ChangeOf(cfg, e).Bad? <==> !Readable(cfg, e)
    ensures var change := ChangeOf(cfg, e);
            Readable(cfg, e) ==>
              Growth(cfg, e, x) == if (change.Plus? || change.Minus?) && change.addr == x then Signed(change) else 0
  {
  }

  // A replay succeeds exactly when every event can be read.
  lemma {:induction false} ReplaySucceedsIff(cfg: Config, w: World, i: nat)
    requires cfg.Valid() && i <= |w.events|
    ensures Replay(cfg, w, i).1.None? <==> forall k :: i <= k < |w.events| ==> Readable(cfg, w.events[k])
    decreases |w.events| - i
  {
    if i < |w.events| {
      var (w1, err) := Apply(cfg, w, ChangeOf(cfg, w.events[i]));
      ApplyGrows(cfg, w, w.events[i], 0);
      if err.None? {
        ReplaySucceedsIff(cfg, w1.(applied := w1.applied + [i]), i + 1);
      }
    }
  }

  lemma ReplayOne(cfg: Config, w: World, i: nat, x: Address) returns (w': World, k: int)
    requires cfg.Valid() && i < |w.events| && Readable(cfg, w.events[i])
    ensures w'.events == w.events && Replay(cfg, w, i) == Replay(cfg, w', i + 1)
    ensures Balance(cfg, w', x) == Balance(cfg, w, x) + Growth(cfg, w.events[i], x) - MAX256 * k
  {
    ApplyGrows(cfg, w, w.events[i], x);
    var w1 := Apply(cfg, w, ChangeOf(cfg, w.events[i])).0;
    w' := w1.(applied := w1.applied + [i]);
    k := (Balance(cfg, w, x) + Growth(cfg, w.events[i], x)) / MAX256;
  }

  // It then changes every balance by what the events say, but for the k times that 256 bits wrap around.
  lemma {:induction false} ReplayAddsUp(cfg: Config, w: World, i: nat, x: Address) returns (k: int)
    requires cfg.Valid() && i <= |w.events| && forall j :: i <= j < |w.events| ==> Readable(cfg, w.events[j])
    ensures Balance(cfg, Replay(cfg, w, i).0, x) == Balance(cfg, w, x) + TotalGrowth(cfg, w.events, i, x) - MAX256 * k
    decreases |w.events| - i
  {
    k := 0;
    if i < |w.events| {
      var w', k1 := ReplayOne(cfg, w, i, x);
      var k2 := ReplayAddsUp(cfg, w', i + 1, x);
      k := k1 + k2;
    }
  }

  // Blocked addresses are left alone, whether the replay succeeds or not.
  lemma {:induction false} ReplayLeavesBlocked(cfg: Config, w: World, i: nat, x: Address)
    requires cfg.Valid() && i <= |w.events| && cfg.blocked(x)
    ensures Balance(cfg, Replay(cfg, w, i).0, x) == Balance(cfg, w, x)
    decreases |w.events| - i
  {
    if i < |w.events| {
      var (w1, err) := Apply(cfg, w, ChangeOf(cfg, w.events[i]));
      ApplyGrows(cfg, w, w.events[i], x);
      if err.None? {
        var w2 := w1.(applied := w1.applied + [i]);
        assert Balance(cfg, w2, x) == Balance(cfg, w1, x);
        ReplayLeavesBlocked(cfg, w2, i + 1, x);
      }
    }
  }
}
