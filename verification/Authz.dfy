/** The filter on nested authz messages (ante/cosmos/authz.go) and the check on top-level messages
    (ante/cosmos/reject_msgs.go). */
module Authz {
  // A MsgExec holds messages and a MsgGrant the type it authorizes; the content of either may fail to decode.
  datatype Msg = Exec(inner: seq<Msg>) | BadExec | Grant(granted: string) | BadGrant | Other(url: string)

  const MAX_NESTED_MSGS: nat := 7

  // ---------- The filter ----------

  // checkDisabledMsgs: the level is compared on entry and grows with every MsgExec of the list.
  predicate Check(disabled: seq<string>, msgs: seq<Msg>, isInner: bool, level: nat)
    decreases msgs, 1
  {
    level < MAX_NESTED_MSGS && CheckFrom(disabled, msgs, 0, isInner, level)
  }

  predicate CheckFrom(disabled: seq<string>, msgs: seq<Msg>, i: nat, isInner: bool, level: nat)
    requires i <= |msgs|
    decreases msgs, 0, |msgs| - i
  {
    if i == |msgs| then true
    else
      match msgs[i]
      case Exec(inner) =>
        Check(disabled, inner, true, level + 1) && CheckFrom(disabled, msgs, i + 1, isInner, level + 1)
      case Grant(url) => url !in disabled && CheckFrom(disabled, msgs, i + 1, isInner, level)
      case BadExec => false
      case BadGrant => false
      case Other(url) => !(isInner && url in disabled) && CheckFrom(disabled, msgs, i + 1, isInner, level)
  }

  method IsDisabledMsg(disabled: seq<string>, url: string) returns (found: bool)
    ensures found <==> url in disabled
  {
    for i := 0 to |disabled|
      invariant url !in disabled[..i]
    {
      if url == disabled[i] {
        return true;
      }
    }
    return false;
  }

  method CheckDisabledMsgs(disabled: seq<string>, msgs: seq<Msg>, isInner: bool, nestedLvl: nat) returns (ok: bool)
    ensures ok == Check(disabled, msgs, isInner, nestedLvl)
    decreases msgs
  {
    if nestedLvl >= MAX_NESTED_MSGS {
      return false;
    }
    var level := nestedLvl;
    for i := 0 to |msgs|
      invariant CheckFrom(disabled, msgs, i, isInner, level) == CheckFrom(disabled, msgs, 0, isInner, nestedLvl)
    {
      match msgs[i] {
        case Exec(inner) =>
          level := level + 1;
          var accepted := CheckDisabledMsgs(disabled, inner, true, level);
          if !accepted {
            return false;
          }
        case BadExec => return false;
        case Grant(url) =>
          var found := IsDisabledMsg(disabled, url);
          if found {
            return false;
          }
        case BadGrant => return false;
        case Other(url) =>
          var found := IsDisabledMsg(disabled, url);
          if isInner && found {
            return false;
          }
      }
    }
    return true;
  }

  // ---------- Paths ----------

  // A path names a message by its position in each list on the way to it.
  ghost predicate IsPath(msgs: seq<Msg>, p: seq<nat>)
    decreases |p|
  {
    && p != [] && p[0] < |msgs|
    && (|p| > 1 ==> msgs[p[0]].Exec? && IsPath(msgs[p[0]].inner, p[1..]))
  }

  ghost function At(msgs: seq<Msg>, p: seq<nat>): Msg
    requires IsPath(msgs, p)
    decreases |p|
  {
    if |p| == 1 then msgs[p[0]] else At(msgs[p[0]].inner, p[1..])
  }

  // How many MsgExecs the list has up to and including position i.
  function Ordinal(msgs: seq<Msg>, i: nat): nat
    requires i < |msgs|
  {
    (if msgs[i].Exec? then 1 else 0) + (if i == 0 then 0 else Ordinal(msgs, i - 1))
  }

  // The ordinals of the MsgExecs along a path, added up.
  ghost function Ordinals(msgs: seq<Msg>, p: seq<nat>): nat
    requires IsPath(msgs, p)
    decreases |p|
  {
    Ordinal(msgs, p[0]) + if |p| == 1 then 0 else Ordinals(msgs[p[0]].inner, p[1..])
  }

  ghost predicate Allowed(disabled: seq<string>, m: Msg, nested: bool, level: nat) {
    match m
    case Exec(_) => level < MAX_NESTED_MSGS
    case Grant(url) => url !in disabled
    case BadExec => false
    case BadGrant => false
    case Other(url) => nested ==> url !in disabled
  }

  ghost predicate AllowedAt(disabled: seq<string>, msgs: seq<Msg>, isInner: bool, level: nat, p: seq<nat>)
    requires IsPath(msgs, p)
  {
    Allowed(disabled, At(msgs, p), isInner || |p| > 1, level + Ordinals(msgs, p))
  }

  // Every message at every depth is allowed.
  ghost predicate AllAllowed(disabled: seq<string>, msgs: seq<Msg>, isInner: bool, level: nat) {
    forall p :: IsPath(msgs, p) ==> AllowedAt(disabled, msgs, isInner, level, p)
  }

  // What AllAllowed asks of the message at position i and everything inside it.
  ghost predicate AllowedBelow(disabled: seq<string>, msgs: seq<Msg>, isInner: bool, level: nat, i: nat)
    requires i < |msgs|
  {
    && Allowed(disabled, msgs[i], isInner, level + Ordinal(msgs, i))
    && (msgs[i].Exec? ==> AllAllowed(disabled, msgs[i].inner, true, level + Ordinal(msgs, i)))
  }

  lemma PathsStartSomewhere(disabled: seq<string>, msgs: seq<Msg>, isInner: bool, level: nat)
    ensures AllAllowed(disabled, msgs, isInner, level) <==>
              forall i :: 0 <= i < |msgs| ==> AllowedBelow(disabled, msgs, isInner, level, i)
  {
    if AllAllowed(disabled, msgs, isInner, level) {
      forall i | 0 <= i < |msgs| ensures AllowedBelow(disabled, msgs, isInner, level, i) {
        assert IsPath(msgs, [i]) && AllowedAt(disabled, msgs, isInner, level, [i]);
        if msgs[i].Exec? {
          var inner := msgs[i].inner;
          forall p | IsPath(inner, p) ensures AllowedAt(disabled, inner, true, level + Ordinal(msgs, i), p) {
            assert ([i] + p)[1..] == p;
            assert IsPath(msgs, [i] + p) && AllowedAt(disabled, msgs, isInner, level, [i] + p);
          }
        }
      }
    }
    if forall i :: 0 <= i < |msgs| ==> AllowedBelow(disabled, msgs, isInner, level, i) {
      forall p | IsPath(msgs, p) ensures AllowedAt(disabled, msgs, isInner, level, p) {
        assert AllowedBelow(disabled, msgs, isInner, level, p[0]);
        if |p| > 1 {
          assert AllowedAt(disabled, msgs[p[0]].inner, true, level + Ordinal(msgs, p[0]), p[1..]);
        }
      }
    }
  }

  // The filter accepts exactly the lists all of whose messages, at any depth, are allowed.
  lemma {:induction false} CheckAcceptsExactly(disabled: seq<string>, msgs: seq<Msg>, isInner: bool, level: nat)
    ensures Check(disabled, msgs, isInner, level) <==>
              level < MAX_NESTED_MSGS && AllAllowed(disabled, msgs, isInner, level)
    decreases msgs, 1
  {
    CheckFromAcceptsExactly(disabled, msgs, 0, isInner, level);
    PathsStartSomewhere(disabled, msgs, isInner, level);
  }

  lemma {:induction false} CheckFromAcceptsExactly(disabled: seq<string>, msgs: seq<Msg>, i: nat, isInner: bool,
                                                   level: nat)
    requires i <= |msgs|
    ensures CheckFrom(disabled, msgs, i, isInner, level + if i == 0 then 0 else Ordinal(msgs, i - 1)) <==>
              forall j :: i <= j < |msgs| ==> AllowedBelow(disabled, msgs, isInner, level, j)
    decreases msgs, 0, |msgs| - i
  {
    if i < |msgs| {
      CheckFromAcceptsExactly(disabled, msgs, i + 1, isInner, level);
      if msgs[i].Exec? {
        CheckAcceptsExactly(disabled, msgs[i].inner, true, level + Ordinal(msgs, i));
      }
      var before := level + if i == 0 then 0 else Ordinal(msgs, i - 1);
      assert CheckFrom(disabled, msgs, i, isInner, before) <==>
        && AllowedBelow(disabled, msgs, isInner, level, i)
        && CheckFrom(disabled, msgs, i + 1, isInner, level + Ordinal(msgs, i));
    }
  }

  // ---------- Together with the top-level check ----------

  const ETHEREUM_TX: string := "/cosmos.evm.vm.v1.MsgEthereumTx"

  // RejectMessagesDecorator.
  method RejectMessages(msgs: seq<Msg>) returns (ok: bool)
    ensures ok <==> Other(ETHEREUM_TX) !in msgs
  {
    for i := 0 to |msgs|
      invariant Other(ETHEREUM_TX) !in msgs[..i]
    {
      if msgs[i] == Other(ETHEREUM_TX) {
        return false;
      }
    }
    return true;
  }

  // A transaction that passes both checks holds no MsgEthereumTx and no grant for one, at any depth.
  lemma NoEthereumTxAnywhere(disabled: seq<string>, msgs: seq<Msg>, p: seq<nat>)
    requires ETHEREUM_TX in disabled && Other(ETHEREUM_TX) !in msgs && Check(disabled, msgs, false, 1)
    requires IsPath(msgs, p)
    ensures At(msgs, p) != Other(ETHEREUM_TX) && At(msgs, p) != Grant(ETHEREUM_TX)
  {
    CheckAcceptsExactly(disabled, msgs, false, 1);
    assert AllowedAt(disabled, msgs, false, 1, p);
  }

  // n empty MsgExecs side by side.
  function Siblings(n: nat): seq<Msg> {
    seq(n, _ => Exec([]))
  }

  // n MsgExecs, each inside the one before.
  function Tower(n: nat): seq<Msg> {
    if n == 0 then [] else [Exec(Tower(n - 1))]
  }

  lemma {:induction false} SiblingsFrom(disabled: seq<string>, n: nat, i: nat, level: nat)
    requires i <= n
    ensures CheckFrom(disabled, Siblings(n), i, false, level) <==> i == n || level + (n - i) < 7
    decreases n - i
  {
    if i < n {
      SiblingsFrom(disabled, n, i + 1, level + 1);
      assert Check(disabled, [], true, level + 1) <==> level + 1 < 7;
    }
  }

  lemma {:induction false} TowerPasses(disabled: seq<string>, n: nat, isInner: bool, level: nat)
    ensures Check(disabled, Tower(n), isInner, level) <==> level + n < 7
    decreases n
  {
    if n > 0 {
      TowerPasses(disabled, n - 1, true, level + 1);
      assert |Tower(n)| == 1 && Tower(n)[0] == Exec(Tower(n - 1));
      assert CheckFrom(disabled, Tower(n), 1, isInner, level + 1);
    }
  }

  // From the top of a transaction five levels of nesting pass and no more, and siblings count like nesting: the
  // sixth of a flat list of empty MsgExecs is already too deep.
  lemma NestingAndSiblingsAlike(disabled: seq<string>, n: nat)
    ensures Check(disabled, Tower(n), false, 1) <==> n <= 5
    ensures Check(disabled, Siblings(n), false, 1) <==> n <= 5
  {
    TowerPasses(disabled, n, false, 1);
    SiblingsFrom(disabled, n, 0, 1);
  }
}
