/** A precompile that sends coins, from the bank's steps to the EVM balances. */
module PrecompileSend {
  import opened Common
  import opened StateJournal
  import opened BalanceMirror
  import opened PrecompileCalls
  import opened PreciseBank

  // The bank that the native action of a call finds.
  ghost function Found(cfg: Config, w: World, call: Call): Bank
    requires cfg.c >= 1
  {
    Commit(cfg, Recorded(w), call).bank
  }

  // A call whose action sends coins can be carried out exactly when the send is affordable, which for an
  // unblocked sender and a backed reserve is a question of its EVM balance. It then shifts what the send moves
  // between the EVM balances of the parties that are not blocked and changes no other unblocked one, although the
  // bank settles borrows and carries through the reserve.
  lemma SendMovesEvmBalances(cfg: Config, w: World, call: Call, reserve: Address,
                             from: Address, to: Address, amount: nat)
    requires cfg.Valid() && Agree(cfg, w) && cfg.blocked(reserve) && Ready(cfg, Found(cfg, w, call), reserve, from, to)
    requires call.steps == SendSteps(cfg.c, Found(cfg, w, call), reserve, from, to, amount) && call.GoesThrough()
    ensures Feasible(cfg, w, call) <==> Affordable(cfg, Found(cfg, w, call), reserve, from, to, amount)
    ensures !cfg.blocked(from) && from != to && to != reserve
            && Surplus(cfg, Found(cfg, w, call), reserve, from, to) >= 0 ==>
              (Feasible(cfg, w, call) <==> amount <= Balance(cfg, w, from))
    ensures Feasible(cfg, w, call) ==>
              var (w', ok) := RunNativeAction(cfg, w, call);
              var m := Moves(cfg.c, reserve, from, to, amount);
              ok && forall x :: !cfg.blocked(x) ==>
                Balance(cfg, w', x) == Balance(cfg, w, x) - (if x == from then m else 0) + (if x == to then m else 0)
  {
    var bank := Found(cfg, w, call);
    FoundMirrors(cfg, w, call);
    EverySend(cfg, bank, reserve, from, to, amount);
    if Surplus(cfg, bank, reserve, from, to) >= 0 {
      BackedReserveGives(cfg, bank, reserve, from, to, amount);
    }
    if Feasible(cfg, w, call) {
      RunMirrors(cfg, w, call);
      var (w', ok) := RunNativeAction(cfg, w, call);
      assert w'.bank == DoAll(bank, call.steps);
      MirroredShift(cfg, w, w', bank, reserve, from, to, Moves(cfg.c, reserve, from, to, amount));
    }
  }

  lemma FoundMirrors(cfg: Config, w: World, call: Call)
    requires cfg.Valid() && Agree(cfg, w)
    ensures Mirrors(cfg, w, Found(cfg, w, call))
  {
    RecordingDirtiesNothing(cfg, w);
    CommitMirrors(cfg, Recorded(w), call);
    assert forall x :: Balance(cfg, Commit(cfg, Recorded(w), call), x) == Balance(cfg, w, x);
  }

  lemma MirroredShift(cfg: Config, w: World, w': World, bank: Bank, reserve: Address,
                      from: Address, to: Address, m: int)
    requires Mirrors(cfg, w, bank) && Mirrors(cfg, w', w'.bank) && cfg.blocked(reserve)
    requires Shifted(cfg, bank, w'.bank, reserve, from, to, m)
    ensures forall x :: !cfg.blocked(x) ==>
              Balance(cfg, w', x) == Balance(cfg, w, x) - (if x == from then m else 0) + (if x == to then m else 0)
  {
  }
}
