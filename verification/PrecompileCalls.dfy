/** Whole transactions: EVM balance changes, snapshots, reverts and precompile calls, in any order
    (precompiles/common/precompile.go and x/vm/statedb). */
module PrecompileCalls {
  import opened Common
  import opened StateJournal
  import opened BalanceMirror

  // ---------- A precompile call ----------

  /** What the environment decides about a call: whether the call counter admits it, whether the commit
      succeeds and which module balances and events it leaves, the bank steps of the native action, and
      whether the action succeeds and its gas can be paid. */
  datatype Call = Call(
    admitted: bool, committed: bool, partialBank: Bank, moduleAccounts: Bank, commitEvents: seq<Event>,
    steps: seq<Step>, succeeds: bool, paid: bool)
  {
    predicate GoesThrough() {
      admitted && committed && succeeds && paid
    }
  }

  function Split(cfg: Config, v: uint256): Account
    requires cfg.c >= 1
  {
    Account(v / cfg.c, v % cfg.c)
  }

  // The bank after writing every dirty balance to it; minting and burning also move module accounts.
  function CommittedBank(cfg: Config, w: World, moduleAccounts: Bank): Bank
    requires cfg.c >= 1
  {
    (a: Address) =>
      if cfg.blocked(a) then moduleAccounts(a)
      else if Dirty(w.journal, a) then Split(cfg, Balance(cfg, w, a))
      else w.bank(a)
  }

  // CommitWithCacheCtx.
  function Commit(cfg: Config, w: World, call: Call): World
    requires cfg.c >= 1
  {
    w.(bank := CommittedBank(cfg, w, call.moduleAccounts), events := w.events + call.commitEvents)
  }

  function Recorded(w: World): World {
    w.(journal := w.journal + [PrecompileCall(w.bank)])
  }

  function Act(w: World, steps: seq<Step>): World {
    w.(bank := DoAll(w.bank, steps), events := w.events + EventsOf(w.bank, steps))
  }

  // runNativeAction: the state it leaves and whether it succeeded.
  function RunNativeAction(cfg: Config, w: World, call: Call): (r: (World, bool))
    requires cfg.c >= 1
    ensures r.0.revisions == w.revisions
  {
    var w1 := Recorded(w);
    if !call.admitted then (w1, false)
    else if !call.committed then (w1.(bank := call.partialBank), false)
    else
      var w2 := Commit(cfg, w1, call);
      var w3 := Act(w2, call.steps);
      if !call.succeeds || !call.paid then (w3, false)
      else
        var (w4, err) := Replay(cfg, w3, |w2.events|);
        (w4, err.None?)
  }

  // The EVM takes a snapshot before the call and reverts to it when the call fails.
  function CallPrecompile(cfg: Config, w: World, call: Call): World
    requires cfg.c >= 1
  {
    var (w', ok) := RunNativeAction(cfg, Snapshot(w), call);
    if ok then w' else RevertTo(w', |w'.revisions| - 1)
  }

  // ---------- The invariant of a transaction ----------

  // The bank is behind the EVM only on balances that the next commit will write.
  ghost predicate Agree(cfg: Config, w: World) {
    forall a :: !cfg.blocked(a) && !Dirty(w.journal, a) ==> Balance(cfg, w, a) == Ext(cfg, w.bank(a))
  }

  // It agrees, and so does every state it can be reverted to.
  ghost predicate Inv(cfg: Config, w: World)
    decreases |w.revisions|
  {
    && Agree(cfg, w)
    && (w.revisions != [] ==>
          && w.revisions[|w.revisions|-1] <= |w.journal|
          && Inv(cfg, RevertTo(w, |w.revisions|-1)))
  }

  lemma {:induction false} SameInv(cfg: Config, w: World, w': World)
    requires Inv(cfg, w) && Same(cfg, w, w') && w.revisions == w'.revisions
    ensures Inv(cfg, w')
    decreases |w.revisions|
  {
    assert Agree(cfg, w') by {
      assert forall a :: Balance(cfg, w', a) == Balance(cfg, w, a);
    }
    if w.revisions != [] {
      var last := |w.revisions| - 1;
      SameUndoTo(cfg, w, w', w.revisions[last]);
      SameReverted(cfg, w, w', last);
      SameInv(cfg, RevertTo(w, last), RevertTo(w', last));
    }
  }

  lemma SameReverted(cfg: Config, w: World, w': World, idx: nat)
    requires idx < |w.revisions| && w.revisions == w'.revisions
    requires Same(cfg, UndoTo(w, w.revisions[idx]), UndoTo(w', w.revisions[idx]))
    ensures Same(cfg, RevertTo(w, idx), RevertTo(w', idx))
  {
    var k := w.revisions[idx];
    forall a ensures Balance(cfg, RevertTo(w, idx), a) == Balance(cfg, RevertTo(w', idx), a) {
      assert Balance(cfg, UndoTo(w, k), a) == Balance(cfg, UndoTo(w', k), a);
    }
  }

  // A step that can be undone keeps the invariant if its own end state agrees.
  lemma StepKeepsInv(cfg: Config, w: World, w': World)
    requires Inv(cfg, w) && Restores(cfg, w', w) && w'.revisions == w.revisions && Agree(cfg, w')
    ensures Inv(cfg, w')
  {
    if w.revisions != [] {
      var last := |w.revisions| - 1;
      RestoredBelow(cfg, w', w, w.revisions[last]);
      SameReverted(cfg, w', w, last);
      SameInv(cfg, RevertTo(w, last), RevertTo(w', last));
    }
  }

  lemma SnapshotKeepsInv(cfg: Config, w: World)
    requires Inv(cfg, w)
    ensures Inv(cfg, Snapshot(w)) && RevertTo(Snapshot(w), |w.revisions|) == w
  {
    var w' := Snapshot(w);
    assert w'.revisions[..|w.revisions|] == w.revisions;
    assert Agree(cfg, w') by {
      assert forall a :: Balance(cfg, w', a) == Balance(cfg, w, a);
    }
  }

  // Reverting to an older snapshot is reverting one snapshot at a time.
  lemma {:induction false} RevertKeepsInv(cfg: Config, w: World, idx: nat)
    requires Inv(cfg, w) && idx < |w.revisions|
    ensures Inv(cfg, RevertTo(w, idx)) && w.revisions[idx] <= |w.journal|
    decreases |w.revisions|
  {
    var last := |w.revisions| - 1;
    if idx < last {
      var w' := RevertTo(w, last);
      RevertKeepsInv(cfg, w', idx);
      UndoIgnoresRevisions(UndoTo(w, w.revisions[last]), w.revisions[..last], w.revisions[idx]);
      UndoInTwoSteps(w, w.revisions[last], w.revisions[idx]);
      assert w.revisions[..last][..idx] == w.revisions[..idx];
      assert RevertTo(w, idx) == RevertTo(w', idx);
    }
  }

  lemma {:induction false} UndoIgnoresRevisions(w: World, revisions: seq<nat>, k: nat)
    ensures UndoTo(w.(revisions := revisions), k) == UndoTo(w, k).(revisions := revisions)
    decreases |w.journal|
  {
    if |w.journal| > k {
      assert Undo(w.(revisions := revisions)) == Undo(w).(revisions := revisions);
      UndoIgnoresRevisions(Undo(w), revisions, k);
    }
  }

  // ---------- Precompile calls keep the invariant ----------

  lemma CommitMirrors(cfg: Config, w: World, call: Call)
    requires cfg.Valid() && Agree(cfg, w)
    ensures Mirrors(cfg, Commit(cfg, w, call), Commit(cfg, w, call).bank)
  {
    var w' := Commit(cfg, w, call);
    forall a | !cfg.blocked(a) ensures Balance(cfg, w', a) == Ext(cfg, w'.bank(a)) {
      assert Balance(cfg, w', a) == Balance(cfg, w, a);
    }
  }

  lemma LaterDirty(journal: seq<Entry>, journal': seq<Entry>, a: Address)
    requires journal <= journal' && Dirty(journal, a)
    ensures Dirty(journal', a)
  {
    var i :| 0 <= i < |journal| && Dirties(journal[i], a);
    assert journal'[i] == journal[i];
  }

  lemma RecordingDirtiesNothing(cfg: Config, w: World)
    requires Agree(cfg, w)
    ensures Agree(cfg, Recorded(w))
  {
    var w' := Recorded(w);
    forall a | !cfg.blocked(a) && !Dirty(w'.journal, a) ensures Balance(cfg, w', a) == Ext(cfg, w'.bank(a)) {
      if Dirty(w.journal, a) {
        LaterDirty(w.journal, w'.journal, a);
      }
      assert Balance(cfg, w', a) == Balance(cfg, w, a);
    }
  }

  lemma RunRestores(cfg: Config, w: World, call: Call)
    requires cfg.Valid()
    ensures Restores(cfg, RunNativeAction(cfg, w, call).0, w)
  {
    var w1 := Recorded(w);
    CallEntryRestores(cfg, w, w1);
    CallEntryRestores(cfg, w, w1.(bank := call.partialBank));
    var w2 := Commit(cfg, w1, call);
    var w3 := Act(w2, call.steps);
    CallEntryRestores(cfg, w, w3);
    ReplayRestores(cfg, w3, |w2.events|);
    RestoresThrough(cfg, Replay(cfg, w3, |w2.events|).0, w3, w);
  }

  // The bank can take every step of the call's native action.
  ghost predicate Feasible(cfg: Config, w: World, call: Call)
    requires cfg.c >= 1
  {
    CanAll(cfg, Commit(cfg, Recorded(w), call).bank, call.steps)
  }

  // An action on a mirrored bank, followed by the replay of its events.
  lemma ActionMirrors(cfg: Config, w: World, steps: seq<Step>)
    requires cfg.Valid() && Mirrors(cfg, w, w.bank) && CanAll(cfg, w.bank, steps)
    ensures var w1 := Act(w, steps);
            var (w', err) := Replay(cfg, w1, |w.events|);
            && err.None? && NeverWraps(cfg, w1, |w.events|) && Mirrors(cfg, w', w'.bank)
            && w'.applied == w.applied + Range(|w.events|, |w'.events|)
  {
    var w1 := Act(w, steps);
    assert w1.events[|w.events|..] == EventsOf(w.bank, steps);
    assert forall a :: Balance(cfg, w1, a) == Balance(cfg, w, a);
    ReplayMirrors(cfg, w1, |w.events|, w.bank, steps);
    ReplayAppliesInOrder(cfg, w1, |w.events|);
  }

  // A call that goes through leaves every unblocked EVM balance equal to its bank balance. No subtraction
  // underflows, and the events replayed are exactly those of the action, each once.
  lemma RunMirrors(cfg: Config, w: World, call: Call)
    requires cfg.Valid() && Agree(cfg, w) && Feasible(cfg, w, call)
    ensures var (w', ok) := RunNativeAction(cfg, w, call);
            && (ok <==> call.GoesThrough())
            && (ok ==>
                  && Mirrors(cfg, w', w'.bank)
                  && NeverWraps(cfg, Act(Commit(cfg, Recorded(w), call), call.steps), |w.events| + |call.commitEvents|)
                  && w'.applied == w.applied + Range(|w.events| + |call.commitEvents|, |w'.events|))
  {
    RecordingDirtiesNothing(cfg, w);
    var w1 := Recorded(w);
    CommitMirrors(cfg, w1, call);
    ActionMirrors(cfg, Commit(cfg, w1, call), call.steps);
  }

  lemma CallKeepsInv(cfg: Config, w: World, call: Call)
    requires cfg.Valid() && Inv(cfg, w) && Feasible(cfg, Snapshot(w), call)
    ensures var w' := CallPrecompile(cfg, w, call);
            && Inv(cfg, w')
            && (call.GoesThrough() ==> Mirrors(cfg, w', w'.bank))
            && (!call.GoesThrough() ==> Same(cfg, w', w) && w'.revisions == w.revisions)
  {
    var w0 := Snapshot(w);
    SnapshotKeepsInv(cfg, w);
    RunMirrors(cfg, w0, call);
    RunRestores(cfg, w0, call);
    var (w', ok) := RunNativeAction(cfg, w0, call);
    if ok {
      StepKeepsInv(cfg, w0, w');
    } else {
      var last := |w.revisions|;
      RestoredBelow(cfg, w', w0, |w0.journal|);
      SameReverted(cfg, w', w0, last);
      SameInv(cfg, w, RevertTo(w', last));
    }
  }

  // ---------- Whole transactions ----------

  datatype Op =
    | Add(addr: Address, amount: uint256)
    | Sub(addr: Address, amount: uint256)
    | ChangeOther(addr: Address)
    | Save
    | Revert(idx: nat)
    | Precompile(call: Call)

  ghost predicate Legal(cfg: Config, w: World, op: Op)
    requires cfg.c >= 1
  {
    match op
    case Revert(idx) => idx < |w.revisions|
    case Precompile(call) => Feasible(cfg, Snapshot(w), call)
    case _ => true
  }

  ghost function Exec(cfg: Config, w: World, op: Op): World
    requires cfg.c >= 1 && Legal(cfg, w, op)
  {
    match op
    case Add(a, amount) => AddBalance(cfg, w, a, amount)
    case Sub(a, amount) => SubBalance(cfg, w, a, amount)
    case ChangeOther(a) => w.(journal := w.journal + [OtherChange(a)])
    case Save => Snapshot(w)
    case Revert(idx) => RevertTo(w, idx)
    case Precompile(call) => CallPrecompile(cfg, w, call)
  }

  // states[k] is the state before ops[k].
  ghost predicate IsRun(cfg: Config, states: seq<World>, ops: seq<Op>)
    requires cfg.c >= 1
  {
    && |states| == |ops| + 1
    && forall k :: 0 <= k < |ops| ==> Legal(cfg, states[k], ops[k]) && states[k+1] == Exec(cfg, states[k], ops[k])
  }

  ghost predicate Initial(cfg: Config, w: World) {
    && w.objects == map[] && w.journal == [] && w.revisions == [] && w.events == [] && w.applied == []
    && forall a :: !cfg.blocked(a) ==> cfg.ctx(a) == Ext(cfg, w.bank(a))
  }

  // A change of one address that dirties it cannot break the agreement.
  lemma DirtyingKeepsAgree(cfg: Config, w: World, w': World, a: Address)
    requires Agree(cfg, w) && w'.bank == w.bank && w.journal <= w'.journal
    requires forall x :: x != a || !Dirty(w'.journal, a) ==> Balance(cfg, w', x) == Balance(cfg, w, x)
    ensures Agree(cfg, w')
  {
    forall x | !cfg.blocked(x) && !Dirty(w'.journal, x) ensures Balance(cfg, w', x) == Ext(cfg, w'.bank(x)) {
      if Dirty(w.journal, x) {
        LaterDirty(w.journal, w'.journal, x);
      }
    }
  }

  lemma AddKeepsInv(cfg: Config, w: World, a: Address, amount: uint256)
    requires cfg.Valid() && Inv(cfg, w)
    ensures Inv(cfg, AddBalance(cfg, w, a, amount))
  {
    TouchKeepsBalances(cfg, w, a);
    AddRestores(cfg, w, a, amount);
    var w' := AddBalance(cfg, w, a, amount);
    assert amount != 0 ==> Dirties(w'.journal[|w'.journal|-1], a);
    DirtyingKeepsAgree(cfg, w, w', a);
    StepKeepsInv(cfg, w, w');
  }

  lemma SubKeepsInv(cfg: Config, w: World, a: Address, amount: uint256)
    requires cfg.Valid() && Inv(cfg, w)
    ensures Inv(cfg, SubBalance(cfg, w, a, amount))
  {
    TouchKeepsBalances(cfg, w, a);
    SubRestores(cfg, w, a, amount);
    var w' := SubBalance(cfg, w, a, amount);
    assert amount != 0 ==> Dirties(w'.journal[|w'.journal|-1], a);
    DirtyingKeepsAgree(cfg, w, w', a);
    StepKeepsInv(cfg, w, w');
  }

  lemma ExecKeepsInv(cfg: Config, w: World, op: Op)
    requires cfg.Valid() && Inv(cfg, w) && Legal(cfg, w, op)
    ensures Inv(cfg, Exec(cfg, w, op))
  {
    match op
    case Add(a, amount) => AddKeepsInv(cfg, w, a, amount);
    case Sub(a, amount) => SubKeepsInv(cfg, w, a, amount);
    case ChangeOther(a) =>
      var w' := Exec(cfg, w, op);
      OtherChangeRestores(cfg, w, a);
      assert forall x :: Balance(cfg, w', x) == Balance(cfg, w, x);
      DirtyingKeepsAgree(cfg, w, w', a);
      StepKeepsInv(cfg, w, w');
    case Save => SnapshotKeepsInv(cfg, w);
    case Revert(idx) => RevertKeepsInv(cfg, w, idx);
    case Precompile(call) => CallKeepsInv(cfg, w, call);
  }

  lemma {:induction false} RunsKeepInv(cfg: Config, states: seq<World>, ops: seq<Op>, k: nat)
    requires cfg.Valid() && IsRun(cfg, states, ops) && Initial(cfg, states[0]) && k < |states|
    ensures Inv(cfg, states[k])
  {
    if k == 0 {
      assert forall a :: Balance(cfg, states[0], a) == cfg.ctx(a);
    } else {
      RunsKeepInv(cfg, states, ops, k - 1);
      ExecKeepsInv(cfg, states[k-1], ops[k-1]);
    }
  }

  // After every successful precompile call of every run the EVM mirrors the bank.
  lemma EveryCallMirrors(cfg: Config, states: seq<World>, ops: seq<Op>, k: nat)
    requires cfg.Valid() && IsRun(cfg, states, ops) && Initial(cfg, states[0])
    requires k < |ops| && ops[k].Precompile? && ops[k].call.GoesThrough()
    ensures Mirrors(cfg, states[k+1], states[k+1].bank)
  {
    RunsKeepInv(cfg, states, ops, k);
    CallKeepsInv(cfg, states[k], ops[k].call);
  }

  // Whatever came before, the commit that ends the transaction writes a bank that the EVM mirrors.
  lemma TransactionEndsMirrored(cfg: Config, states: seq<World>, ops: seq<Op>, end: Call)
    requires cfg.Valid() && IsRun(cfg, states, ops) && Initial(cfg, states[0])
    ensures Mirrors(cfg, states[|ops|], Commit(cfg, states[|ops|], end).bank)
  {
    var w := states[|ops|];
    RunsKeepInv(cfg, states, ops, |ops|);
    CommitMirrors(cfg, w, end);
    assert forall a :: Balance(cfg, w, a) == Balance(cfg, Commit(cfg, w, end), a);
  }

  // ---------- No event is applied twice ----------

  ghost predicate AppliedOnce(w: World) {
    && (forall i, j :: 0 <= i < j < |w.applied| ==> w.applied[i] < w.applied[j])
    && (forall i :: 0 <= i < |w.applied| ==> w.applied[i] < |w.events|)
  }

  lemma {:induction false} RangeAt(lo: nat, hi: nat)
    requires lo <= hi
    ensures |Range(lo, hi)| == hi - lo && forall k :: 0 <= k < hi - lo ==> Range(lo, hi)[k] == lo + k
    decreases hi - lo
  {
    if lo < hi {
      RangeAt(lo + 1, hi);
      forall k | 0 <= k < hi - lo ensures Range(lo, hi)[k] == lo + k {
        if k > 0 {
          assert Range(lo, hi)[k] == Range(lo + 1, hi)[k-1];
        }
      }
    }
  }

  lemma CallAppliesOnce(cfg: Config, w: World, call: Call)
    requires cfg.c >= 1 && AppliedOnce(w)
    ensures AppliedOnce(CallPrecompile(cfg, w, call))
  {
    var w2 := Commit(cfg, Recorded(Snapshot(w)), call);
    var w3 := Act(w2, call.steps);
    var w4 := Replay(cfg, w3, |w2.events|).0;
    ReplayAppliesInOrder(cfg, w3, |w2.events|);
    RangeAt(|w2.events|, |w3.events|);
    assert AppliedOnce(w4);
  }

  lemma ExecAppliesOnce(cfg: Config, w: World, op: Op)
    requires cfg.c >= 1 && AppliedOnce(w) && Legal(cfg, w, op)
    ensures AppliedOnce(Exec(cfg, w, op))
  {
    if op.Precompile? {
      CallAppliesOnce(cfg, w, op.call);
    } else {
      assert Exec(cfg, w, op).events == w.events && Exec(cfg, w, op).applied == w.applied;
    }
  }

  lemma {:induction false} EventsAreAppliedOnce(cfg: Config, states: seq<World>, ops: seq<Op>, k: nat)
    requires cfg.c >= 1 && IsRun(cfg, states, ops) && Initial(cfg, states[0]) && k < |states|
    ensures AppliedOnce(states[k])
  {
    if k > 0 {
      EventsAreAppliedOnce(cfg, states, ops, k - 1);
      ExecAppliesOnce(cfg, states[k-1], ops[k-1]);
    }
  }
}
