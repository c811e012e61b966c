/** The state database and the balance handler as objects, and the sequence that runs a native action. */
module PrecompileRuntime {
  import opened Common
  import opened StateJournal
  import opened BalanceMirror
  import opened PrecompileCalls

  class StateDB {
    const cfg: Config
    var objects: map<Address, uint256>
    var journal: seq<Entry>
    var revisions: seq<nat>
    var bank: Bank
    var events: seq<Event>
    var applied: seq<nat> // a record of the replayed events

    function State(): World
      reads this
    {
      World(objects, journal, revisions, bank, events, applied)
    }

    constructor (cfg: Config, bank: Bank)
      ensures this.cfg == cfg && State() == World(map[], [], [], bank, [], [])
    {
      this.cfg := cfg;
      this.bank := bank;
      objects, journal, revisions, events, applied := map[], [], [], [], [];
    }

    method GetOrNewStateObject(a: Address)
      modifies this
      ensures State() == Touch(cfg, old(State()), a) && a in objects
    {
      if a !in objects {
        if cfg.hasAccount(a) {
          objects := objects[a := cfg.ctx(a)];
        } else {
          journal := journal + [CreateObject(a)];
          objects := objects[a := 0];
        }
      }
    }

    method AddBalance(a: Address, amount: uint256)
      modifies this
      ensures State() == StateJournal.AddBalance(cfg, old(State()), a, amount)
    {
      GetOrNewStateObject(a);
      if amount != 0 {
        journal := journal + [BalanceChange(a, objects[a])];
        objects := objects[a := Wrap(objects[a] + amount)];
      }
    }

    method SubBalance(a: Address, amount: uint256)
      modifies this
      ensures State() == StateJournal.SubBalance(cfg, old(State()), a, amount)
    {
      GetOrNewStateObject(a);
      if amount != 0 {
        journal := journal + [BalanceChange(a, objects[a])];
        objects := objects[a := Wrap(objects[a] - amount)];
      }
    }

    method TakeSnapshot() returns (idx: nat)
      modifies this
      ensures State() == Snapshot(old(State())) && idx < |revisions| && revisions[idx] == |journal|
    {
      idx := |revisions|;
      revisions := revisions + [|journal|];
    }

    // The revert of the last journal entry, which is then dropped.
    method UndoLast()
      requires journal != []
      modifies this
      ensures State() == Undo(old(State()))
    {
      match journal[|journal|-1] {
        case BalanceChange(a, prev) => objects := objects[a := prev];
        case CreateObject(a) => objects := objects - {a};
        case OtherChange(_) =>
        case PrecompileCall(saved) => bank := saved;
      }
      journal := journal[..|journal|-1];
    }

    method RevertToSnapshot(idx: nat)
      requires idx < |revisions|
      modifies this
      ensures State() == RevertTo(old(State()), idx)
    {
      var snapshot := revisions[idx];
      while |journal| > snapshot
        invariant revisions == old(revisions) && UndoTo(State(), snapshot) == UndoTo(old(State()), snapshot)
        decreases |journal|
      {
        UndoLast();
      }
      revisions := revisions[..idx];
    }
  }

  class BalanceHandler {
    var prevEventsLen: nat

    constructor ()
      ensures prevEventsLen == 0
    {
      prevEventsLen := 0;
    }

    method BeforeBalanceChange(db: StateDB)
      modifies this
      ensures prevEventsLen == |db.events|
    {
      prevEventsLen := |db.events|;
    }

    method AfterBalanceChange(db: StateDB) returns (err: Option<Error>)
      requires prevEventsLen <= |db.events|
      modifies db
      ensures (db.State(), err) == Replay(db.cfg, old(db.State()), prevEventsLen)
    {
      var events := db.events;
      var i := prevEventsLen;
      while i < |events|
        invariant prevEventsLen <= i <= |events| == |db.events| && db.events == events
        invariant Replay(db.cfg, db.State(), i) == Replay(db.cfg, old(db.State()), prevEventsLen)
      {
        err := ApplyEvent(db, events[i]);
        if err.Some? {
          return;
        }
        db.applied := db.applied + [i];
        i := i + 1;
      }
      return None;
    }
  }

  // One round of the replay loop.
  method ApplyEvent(db: StateDB, event: Event) returns (err: Option<Error>)
    modifies db
    ensures (db.State(), err) == Apply(db.cfg, old(db.State()), ChangeOf(db.cfg, event))
  {
    if event.OtherEvent? {
      return None;
    }
    if event.addr.None? {
      return Some(BadAddress);
    }
    var a := event.addr.value;
    if db.cfg.blocked(a) {
      return None;
    }
    match event {
      case Spent(_, amount) =>
        var scaled := Scaled(db.cfg, amount);
        if scaled.None? {
          return Some(BadAmount);
        }
        db.SubBalance(a, scaled.value);
      case Received(_, amount) =>
        var scaled := Scaled(db.cfg, amount);
        if scaled.None? {
          return Some(BadAmount);
        }
        db.AddBalance(a, scaled.value);
      case Fractional(_, delta) =>
        if delta.None? || delta.value >= MAX256 || -delta.value >= MAX256 {
          return Some(BadAmount);
        }
        if delta.value > 0 {
          db.AddBalance(a, delta.value);
        } else if delta.value < 0 {
          db.SubBalance(a, -delta.value);
        }
    }
    return None;
  }

  method RunNativeAction(db: StateDB, call: Call) returns (ok: bool)
    requires db.cfg.c >= 1
    modifies db
    ensures (db.State(), ok) == PrecompileCalls.RunNativeAction(db.cfg, old(db.State()), call)
  {
    db.journal := db.journal + [PrecompileCall(db.bank)];
    if !call.admitted {
      return false;
    }
    if !call.committed {
      db.bank := call.partialBank;
      return false;
    }
    db.bank, db.events := CommittedBank(db.cfg, db.State(), call.moduleAccounts), db.events + call.commitEvents;
    var handler := new BalanceHandler();
    handler.BeforeBalanceChange(db);
    db.bank, db.events := DoAll(db.bank, call.steps), db.events + EventsOf(db.bank, call.steps);
    if !call.succeeds {
      return false;
    }
    if !call.paid {
      return false;
    }
    var err := handler.AfterBalanceChange(db);
    return err.None?;
  }
}
