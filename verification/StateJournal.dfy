/** The journalled state database of x/vm/statedb, reduced to balances: a cache of EVM balances over a
    fixed transaction context, a cached bank that precompiles write to, and a journal that undoes both. */
module StateJournal {
  import opened Common

  const MAX256: nat := 0x1_0000000000000000_0000000000000000_0000000000000000_0000000000000000

  type uint256 = x: int | 0 <= x < MAX256

  // An account in the bank: integer coins, and a fractional part below the conversion factor.
  datatype Account = Account(whole: nat, frac: nat)

  type Bank = Address -> Account

  // A bank event after its attributes have been parsed; None is an attribute that does not parse.
  datatype Event =
    | Spent(addr: Option<Address>, amount: Option<nat>)
    | Received(addr: Option<Address>, amount: Option<nat>)
    | Fractional(addr: Option<Address>, delta: Option<int>)
    | OtherEvent

  datatype Entry =
    | BalanceChange(addr: Address, prev: uint256)
    | CreateObject(addr: Address)
    | OtherChange(addr: Address)
    | PrecompileCall(snapshot: Bank)

  /** The factor between the bank's integer coin and 18 decimals, the addresses the bank blocks, and the
      balances and accounts of the transaction's context, from which state objects are loaded. */
  datatype Config = Config(c: nat, blocked: Address -> bool, ctx: Address -> uint256, hasAccount: Address -> bool)
  {
    ghost predicate Valid() {
      c >= 1 && forall a :: !hasAccount(a) ==> ctx(a) == 0
    }
  }

  /** objects holds the loaded balances and revisions the journal lengths of the valid snapshots; events are
      those of the cached context, of which the positions in applied have been replayed. */
  datatype World = World(
    objects: map<Address, uint256>,
    journal: seq<Entry>,
    revisions: seq<nat>,
    bank: Bank,
    events: seq<Event>,
    applied: seq<nat>)

  // GetBalance: a live object, or else the context.
  function Balance(cfg: Config, w: World, a: Address): uint256 {
    if a in w.objects then w.objects[a] else cfg.ctx(a)
  }

  predicate Dirties(e: Entry, a: Address) {
    !e.PrecompileCall? && e.addr == a
  }

  predicate Dirty(journal: seq<Entry>, a: Address) {
    exists i :: 0 <= i < |journal| && Dirties(journal[i], a)
  }

  // ---------- Changes ----------

  function SetBalance(cfg: Config, w: World, a: Address, v: uint256): World {
    w.(objects := w.objects[a := v], journal := w.journal + [BalanceChange(a, Balance(cfg, w, a))])
  }

  // getOrNewStateObject.
  function Touch(cfg: Config, w: World, a: Address): World {
    if a in w.objects then w
    else if cfg.hasAccount(a) then w.(objects := w.objects[a := cfg.ctx(a)])
    else w.(objects := w.objects[a := 0], journal := w.journal + [CreateObject(a)])
  }

  // Sums and differences of 256-bit words wrap around.
  function Wrap(x: int): (r: uint256)
    ensures 0 <= x < MAX256 ==> r == x
  {
    x % MAX256
  }

  function AddBalance(cfg: Config, w: World, a: Address, amount: uint256): World {
    var w1 := Touch(cfg, w, a);
    if amount == 0 then w1 else SetBalance(cfg, w1, a, Wrap(Balance(cfg, w1, a) + amount))
  }

  function SubBalance(cfg: Config, w: World, a: Address, amount: uint256): World {
    var w1 := Touch(cfg, w, a);
    if amount == 0 then w1 else SetBalance(cfg, w1, a, Wrap(Balance(cfg, w1, a) - amount))
  }

  // Adding or subtracting loads the account. It becomes dirty when the amount is not zero or when the account has
  // to be created, and nothing else does.
  lemma ChangeDirties(cfg: Config, w: World, a: Address, amount: uint256, x: Address)
    ensures a in AddBalance(cfg, w, a, amount).objects && a in SubBalance(cfg, w, a, amount).objects
    ensures var created := a !in w.objects && !cfg.hasAccount(a);
            && (Dirty(AddBalance(cfg, w, a, amount).journal, x) <==>
                Dirty(w.journal, x) || (x == a && (amount != 0 || created)))
            && (Dirty(SubBalance(cfg, w, a, amount).journal, x) <==>
                Dirty(w.journal, x) || (x == a && (amount != 0 || created)))
  {
    var w1 := Touch(cfg, w, a);
    if a !in w.objects && !cfg.hasAccount(a) {
      DirtyOneMore(w.journal, CreateObject(a), x);
    }
    DirtyOneMore(w1.journal, BalanceChange(a, Balance(cfg, w1, a)), x);
  }

  lemma DirtyOneMore(journal: seq<Entry>, e: Entry, x: Address)
    ensures Dirty(journal + [e], x) <==> Dirty(journal, x) || Dirties(e, x)
  {
    if i :| 0 <= i < |journal| && Dirties(journal[i], x) {
      assert (journal + [e])[i] == journal[i];
    }
    assert (journal + [e])[|journal|] == e;
  }

  function Snapshot(w: World): World {
    w.(revisions := w.revisions + [|w.journal|])
  }

  // ---------- Undoing ----------

  function Undo(w: World): World
    requires w.journal != []
  {
    var rest := w.(journal := w.journal[..|w.journal|-1]);
    match w.journal[|w.journal|-1]
    case BalanceChange(a, prev) => rest.(objects := w.objects[a := prev])
    case CreateObject(a) => rest.(objects := w.objects - {a})
    case OtherChange(_) => rest
    case PrecompileCall(snapshot) => rest.(bank := snapshot)
  }

  function UndoTo(w: World, k: nat): (r: World)
    ensures r.revisions == w.revisions && r.events == w.events && r.applied == w.applied
    ensures |r.journal| <= |w.journal| && (k <= |w.journal| ==> |r.journal| == k)
    decreases |w.journal|
  {
    if |w.journal| <= k then w else UndoTo(Undo(w), k)
  }

  // RevertToSnapshot.
  function RevertTo(w: World, idx: nat): World
    requires idx < |w.revisions|
  {
    UndoTo(w, w.revisions[idx]).(revisions := w.revisions[..idx])
  }

  // ---------- What undoing restores ----------

  // Equal up to which unchanged objects are loaded.
  ghost predicate Same(cfg: Config, w: World, w': World) {
    w.journal == w'.journal && w.bank == w'.bank && forall a :: Balance(cfg, w, a) == Balance(cfg, w', a)
  }

  ghost predicate Restores(cfg: Config, w': World, w: World) {
    |w.journal| <= |w'.journal| && Same(cfg, UndoTo(w', |w.journal|), w)
  }

  lemma SameUndo(cfg: Config, w: World, w': World)
    requires Same(cfg, w, w') && w.journal != []
    ensures Same(cfg, Undo(w), Undo(w'))
  {
    var e := w.journal[|w.journal|-1];
    forall a ensures Balance(cfg, Undo(w), a) == Balance(cfg, Undo(w'), a) {
      assert Balance(cfg, w, a) == Balance(cfg, w', a);
    }
  }

  lemma {:induction false} SameUndoTo(cfg: Config, w: World, w': World, k: nat)
    requires Same(cfg, w, w')
    ensures Same(cfg, UndoTo(w, k), UndoTo(w', k))
    decreases |w.journal|
  {
    if |w.journal| > k {
      SameUndo(cfg, w, w');
      SameUndoTo(cfg, Undo(w), Undo(w'), k);
    }
  }

  lemma {:induction false} UndoInTwoSteps(w: World, j: nat, k: nat)
    requires k <= j
    ensures UndoTo(w, k) == UndoTo(UndoTo(w, j), k)
    decreases |w.journal|
  {
    if |w.journal| > j {
      UndoInTwoSteps(Undo(w), j, k);
    }
  }

  // Undoing to any earlier point does not see what w' did after w.
  lemma RestoredBelow(cfg: Config, w': World, w: World, k: nat)
    requires Restores(cfg, w', w) && k <= |w.journal|
    ensures Same(cfg, UndoTo(w', k), UndoTo(w, k))
  {
    UndoInTwoSteps(w', |w.journal|, k);
    SameUndoTo(cfg, UndoTo(w', |w.journal|), w, k);
  }

  lemma RestoresThrough(cfg: Config, w'': World, w': World, w: World)
    requires Restores(cfg, w'', w') && Restores(cfg, w', w)
    ensures Restores(cfg, w'', w)
  {
    RestoredBelow(cfg, w'', w', |w.journal|);
  }

  lemma SetBalanceRestores(cfg: Config, w: World, a: Address, v: uint256)
    ensures Restores(cfg, SetBalance(cfg, w, a, v), w)
  {
    var w' := SetBalance(cfg, w, a, v);
    assert w'.journal[..|w'.journal|-1] == w.journal;
    assert UndoTo(w', |w.journal|) == Undo(w');
  }

  lemma TouchRestores(cfg: Config, w: World, a: Address)
    ensures Restores(cfg, Touch(cfg, w, a), w)
  {
    var w' := Touch(cfg, w, a);
    if a !in w.objects && !cfg.hasAccount(a) {
      assert w'.journal[..|w'.journal|-1] == w.journal;
      assert UndoTo(w', |w.journal|) == Undo(w');
      assert w'.objects - {a} == w.objects;
    }
  }

  lemma OtherChangeRestores(cfg: Config, w: World, a: Address)
    ensures Restores(cfg, w.(journal := w.journal + [OtherChange(a)]), w)
  {
    var w' := w.(journal := w.journal + [OtherChange(a)]);
    assert w'.journal[..|w'.journal|-1] == w.journal;
    assert UndoTo(w', |w.journal|) == Undo(w');
  }

  // Whatever a precompile does to the bank, undoing its journal entry brings the old bank back.
  lemma CallEntryRestores(cfg: Config, w: World, w': World)
    requires w'.journal == w.journal + [PrecompileCall(w.bank)] && w'.objects == w.objects
    ensures Restores(cfg, w', w)
  {
    assert w'.journal[..|w'.journal|-1] == w.journal;
    assert UndoTo(w', |w.journal|) == Undo(w');
  }
}
