/** A whole sign document as typed data: flattening its messages, its schema and its domain. */
module SignDoc {
  import opened Common
  import opened Text
  import opened TypeTable
  import opened TypedData
  import TypeMap

  // ---------- Objects, key by key ----------

  // What the object holds under a key.
  function Lookup(fields: seq<Field>, name: string): Option<Json> {
    if HasKey(fields, name) then Some(fields[IndexOf(fields, name)].value) else None
  }

  lemma {:induction false} LookupInParts(a: seq<Field>, b: seq<Field>, name: string)
    ensures Lookup(a + b, name) == if Lookup(a, name).Some? then Lookup(a, name) else Lookup(b, name)
  {
    if a == [] {
      assert a + b == b;
    } else {
      LookupInParts(a[1..], b, name);
      assert (a + b)[1..] == a[1..] + b;
    }
  }

  lemma {:induction false} LookupAt(fields: seq<Field>, i: nat)
    requires i < |fields| && forall j :: 0 <= j < i ==> fields[j].name != fields[i].name
    ensures Lookup(fields, fields[i].name) == Some(fields[i].value)
  {
    if i > 0 {
      LookupAt(fields[1..], i - 1);
    }
  }

  // ---------- Flattening ----------

  predicate IsMsgField(k: string, n: nat) {
    exists i: nat :: i < n && k == MsgField(i)
  }

  lemma MsgFieldsDiffer(i: nat, j: nat)
    requires MsgField(i) == MsgField(j)
    ensures i == j
  {
    assert MsgField(i)[3..] == Itoa(i) && MsgField(j)[3..] == Itoa(j);
    ItoaIsInjective(i, j);
  }

  lemma MsgFieldIsWord(i: nat)
    ensures MsgField(i) != "msgs" && IsWord(MsgField(i)) && MsgField(i) !in FIXED_FIELDS
  {
    assert MsgField(i)[0] == 'm' && MsgField(i)[1] == 's' && MsgField(i)[2] == 'g' && MsgField(i)[3] == Itoa(i)[0];
    assert IsDigit(Itoa(i)[0]);
    forall c | c in MsgField(i) ensures IsAlnum(c) {
      assert c in "msg" || c in Itoa(i);
    }
  }

  // The messages as fields msg0, msg1, and so on.
  function MsgFields(msgs: seq<Json>): (fields: seq<Field>)
    ensures |fields| == |msgs|
    ensures forall i :: 0 <= i < |msgs| ==> fields[i] == Field(MsgField(i), msgs[i])
  {
    seq(|msgs|, i requires 0 <= i < |msgs| => Field(MsgField(i), msgs[i]))
  }

  lemma {:induction false} LookupMsgField(msgs: seq<Json>, name: string)
    ensures Lookup(MsgFields(msgs), name).Some? <==> IsMsgField(name, |msgs|)
    ensures forall i: nat :: i < |msgs| && name == MsgField(i) ==> Lookup(MsgFields(msgs), name) == Some(msgs[i])
  {
    if msgs != [] {
      var n := |msgs| - 1;
      LookupMsgField(msgs[..n], name);
      assert MsgFields(msgs) == MsgFields(msgs[..n]) + [Field(MsgField(n), msgs[n])];
      LookupInParts(MsgFields(msgs[..n]), [Field(MsgField(n), msgs[n])], name);
      forall i: nat | i < n && name == MsgField(i) ensures name != MsgField(n) {
        if name == MsgField(n) {
          MsgFieldsDiffer(i, n);
        }
      }
    }
  }

  // getPayloadMessages: a null list is an empty one.
  function PayloadMessages(payload: Json): Result<seq<Json>, Error>
    requires payload.Object?
  {
    match Lookup(payload.fields, "msgs")
    case None => Err(NoMessages)
    case Some(Null) => Ok([])
    case Some(Array(msgs)) => Ok(msgs)
    case Some(_) => Err(NotAnArray)
  }

  // Deletes the field "msgs".
  function WithoutMsgs(fields: seq<Field>): seq<Field> {
    var j := IndexOf(fields, "msgs");
    if j < |fields| then fields[..j] + fields[j+1..] else fields
  }

  // payloadWithNewMessage accepts message i.
  predicate Accepts(payload: Json, msgs: seq<Json>, i: nat)
    requires payload.Object? && i < |msgs|
  {
    !HasKey(payload.fields, MsgField(i)) && msgs[i].Object?
  }

  lemma MsgKeyIsNew(fields: seq<Field>, msgs: seq<Json>, i: nat)
    requires i < |msgs|
    ensures HasKey(fields + MsgFields(msgs[..i]), MsgField(i)) <==> HasKey(fields, MsgField(i))
  {
    LookupInParts(fields, MsgFields(msgs[..i]), MsgField(i));
    LookupMsgField(msgs[..i], MsgField(i));
    forall j: nat | j < i ensures MsgField(j) != MsgField(i) {
      if MsgField(j) == MsgField(i) {
        MsgFieldsDiffer(j, i);
      }
    }
  }

  lemma MsgsKeyStays(fields: seq<Field>, msgs: seq<Json>)
    requires HasKey(fields, "msgs")
    ensures WithoutMsgs(fields + MsgFields(msgs)) == WithoutMsgs(fields) + MsgFields(msgs)
  {
    IndexOfInPrefix(fields, MsgFields(msgs), "msgs");
    DeleteInPrefix(fields, MsgFields(msgs), IndexOf(fields, "msgs"));
  }

  lemma DeleteInPrefix(a: seq<Field>, b: seq<Field>, j: nat)
    requires j < |a|
    ensures (a + b)[..j] + (a + b)[j+1..] == a[..j] + a[j+1..] + b
  {
  }

  lemma {:induction false} IndexOfInPrefix(a: seq<Field>, b: seq<Field>, name: string)
    requires HasKey(a, name)
    ensures IndexOf(a + b, name) == IndexOf(a, name)
  {
    if a[0].name != name {
      IndexOfInPrefix(a[1..], b, name);
      assert (a + b)[1..] == a[1..] + b;
    }
  }

  // FlattenPayloadMessages: the list of messages becomes one field per message, behind the other fields. It fails
  // when there is no list, at a message that is not an object, and at a key that the payload has already.
  method Flatten(payload: Json) returns (r: Result<(Json, nat), Error>)
    requires payload.Object?
    ensures PayloadMessages(payload).Err? ==> r == Err(PayloadMessages(payload).error)
    ensures PayloadMessages(payload).Ok? ==>
              var msgs := PayloadMessages(payload).value;
              && (r.Ok? <==> forall i: nat :: i < |msgs| ==> Accepts(payload, msgs, i))
              && (r.Ok? ==> r.value == (Object(WithoutMsgs(payload.fields) + MsgFields(msgs)), |msgs|))
              && (r.Err? ==> exists i: nat :: StopsAt(payload, msgs, i, r.error))
  {
    var found := PayloadMessages(payload);
    if found.Err? {
      return Err(found.error);
    }
    var msgs, fields := found.value, payload.fields;
    assert fields == payload.fields + MsgFields(msgs[..0]);
    for i := 0 to |msgs|
      invariant fields == payload.fields + MsgFields(msgs[..i])
      invariant forall j: nat :: j < i ==> Accepts(payload, msgs, j)
    {
      MsgKeyIsNew(payload.fields, msgs, i);
      if HasKey(fields, MsgField(i)) {
        assert StopsAt(payload, msgs, i, KeyTaken);
        return Err(KeyTaken);
      }
      if !msgs[i].Object? {
        assert StopsAt(payload, msgs, i, NotAnObject);
        return Err(NotAnObject);
      }
      fields := fields + [Field(MsgField(i), msgs[i])];
      assert MsgFields(msgs[..i+1]) == MsgFields(msgs[..i]) + [Field(MsgField(i), msgs[i])];
    }
    assert msgs[..|msgs|] == msgs;
    MsgsKeyStays(payload.fields, msgs);
    return Ok((Object(WithoutMsgs(fields)), |msgs|));
  }

  // Message i is the first that is not accepted.
  ghost predicate StopsAt(payload: Json, msgs: seq<Json>, i: nat, e: Error)
    requires payload.Object?
  {
    && i < |msgs| && !Accepts(payload, msgs, i) && (forall j: nat :: j < i ==> Accepts(payload, msgs, j))
    && e == if HasKey(payload.fields, MsgField(i)) then KeyTaken else NotAnObject
  }

  // Flattening loses nothing: every message is found under its own key, and every other key holds what it held.
  lemma FlattenedLookup(payload: Json, msgs: seq<Json>, k: string)
    requires payload.Object? && PayloadMessages(payload) == Ok(msgs)
    requires forall i: nat :: i < |msgs| ==> Accepts(payload, msgs, i)
    ensures var flat := WithoutMsgs(payload.fields) + MsgFields(msgs);
            && (k != "msgs" && !IsMsgField(k, |msgs|) ==> Lookup(flat, k) == Lookup(payload.fields, k))
            && (forall i: nat :: i < |msgs| && k == MsgField(i) ==> Lookup(flat, k) == Some(msgs[i]))
  {
    var rest := WithoutMsgs(payload.fields);
    LookupInParts(rest, MsgFields(msgs), k);
    LookupMsgField(msgs, k);
    if k != "msgs" {
      LookupWithoutMsgs(payload.fields, k);
    }
    forall i: nat | i < |msgs| && k == MsgField(i) ensures Lookup(rest, k) == None {
      MsgFieldIsWord(i);
      assert Accepts(payload, msgs, i);
    }
  }

  lemma LookupWithoutMsgs(fields: seq<Field>, k: string)
    requires k != "msgs"
    ensures Lookup(WithoutMsgs(fields), k) == Lookup(fields, k)
  {
    var j := IndexOf(fields, "msgs");
    if j < |fields| {
      assert fields == fields[..j] + ([fields[j]] + fields[j+1..]);
      LookupInParts(fields[..j], [fields[j]] + fields[j+1..], k);
      LookupInParts([fields[j]], fields[j+1..], k);
      LookupInParts(fields[..j], fields[j+1..], k);
    }
  }

  // The list itself is gone, when it was there once.
  lemma ListIsGone(payload: Json, msgs: seq<Json>, j: nat)
    requires payload.Object? && j < |payload.fields|
    requires forall i :: 0 <= i < |payload.fields| ==> (payload.fields[i].name == "msgs" <==> i == j)
    ensures !HasKey(WithoutMsgs(payload.fields) + MsgFields(msgs), "msgs")
  {
    var fields, rest := payload.fields, WithoutMsgs(payload.fields);
    assert fields[j] in fields && IndexOf(fields, "msgs") == j;
    forall i | 0 <= i < |rest| ensures rest[i].name != "msgs" {
      assert rest[i] == fields[if i < j then i else i + 1];
    }
    LookupInParts(rest, MsgFields(msgs), "msgs");
    LookupMsgField(msgs, "msgs");
    forall i: nat | i < |msgs| ensures MsgField(i) != "msgs" {
      MsgFieldIsWord(i);
    }
  }

  // ---------- Typed data ----------

  const FIXED_FIELDS: set<string> := {"account_number", "chain_id", "fee", "memo", "sequence"}

  // The key is there, with a value that EIP-712 can represent.
  ghost predicate Represented(fields: seq<Field>, k: string) {
    HasKey(fields, k) && ShapeOf(Get(Object(fields), k)).Some?
  }

  // No representable field but these.
  ghost predicate OnlyKeys(v: Json, keys: set<string>)
    requires v.Object?
  {
    forall k :: Represented(v.fields, k) ==> k in keys
  }

  ghost predicate IsCoin(v: Json) {
    v.Object? && Get(v, "denom").Str? && Get(v, "amount").Str? && OnlyKeys(v, {"denom", "amount"})
  }

  ghost predicate IsFee(v: Json) {
    && v.Object? && Get(v, "gas").Str? && OnlyKeys(v, {"amount", "gas"})
    && Get(v, "amount").Array? && forall c :: c in Get(v, "amount").elems ==> IsCoin(c)
  }

  // The fields of a transaction around its messages.
  ghost predicate HasHeader(v: Json) {
    && v.Object? && Get(v, "account_number").Str? && Get(v, "chain_id").Str? && IsFee(Get(v, "fee"))
    && Get(v, "memo").Str? && Get(v, "sequence").Str?
  }

  ghost predicate HasTyped(t: Table, v: Json, f: TypeField)
    requires v.Object?
  {
    HasKey(v.fields, f.name) && Conforms(t, f.typ, Get(v, f.name))
  }

  // v has the fields number lo to hi of the list, with values of their types.
  ghost predicate HasFields(t: Table, v: Json, types: seq<TypeField>, lo: nat, hi: nat)
    requires v.Object? && hi <= |types|
  {
    forall i :: lo <= i < hi ==> HasTyped(t, v, types[i])
  }

  ghost predicate Listed(types: seq<TypeField>, k: string) {
    exists i :: 0 <= i < |types| && types[i].name == k
  }

  lemma ConformsToObject(t: Table, ref: string, v: Json)
    requires v.Object? && ref in t && !IsAtomic(ref) && !IsCollection(ref)
    ensures Conforms(t, ref, v) <==>
            HasFields(t, v, t[ref], 0, |t[ref]|) && forall k :: Represented(v.fields, k) ==> Listed(t[ref], k)
  {
    assert v == Object(v.fields);
    assert forall k :: Represented(v.fields, k) <==> HasKey(v.fields, k) && ShapeOf(Get(v, k)).Some?;
    assert HasFields(t, v, t[ref], 0, |t[ref]|) <==>
           forall i :: 0 <= i < |t[ref]| ==>
             HasKey(v.fields, t[ref][i].name) && Conforms(t, t[ref][i].typ, Get(v, t[ref][i].name));
  }

  // v has exactly two fields to represent, of the two listed types.
  lemma ConformsToPair(t: Table, ref: string, v: Json, f: TypeField, g: TypeField)
    requires v.Object? && ref in t && !IsAtomic(ref) && !IsCollection(ref) && t[ref] == [f, g]
    ensures Conforms(t, ref, v) <==> HasTyped(t, v, f) && HasTyped(t, v, g) && OnlyKeys(v, {f.name, g.name})
  {
    ConformsToObject(t, ref, v);
    assert t[ref][0] == f && t[ref][1] == g;
    assert forall k :: Listed(t[ref], k) <==> k in {f.name, g.name};
  }

  lemma CoinConforms(t: Table, v: Json)
    requires HasFixedTypes(t)
    ensures Conforms(t, "Coin", v) <==> IsCoin(v)
  {
    assert t["Coin"] == BaseTypes()["Coin"];
    if v.Object? {
      ConformsToPair(t, "Coin", v, TypeField("denom", "string"), TypeField("amount", "string"));
    }
  }

  lemma CoinsConform(t: Table, v: Json)
    requires HasFixedTypes(t)
    ensures Conforms(t, "Coin[]", v) <==> v.Array? && forall c :: c in v.elems ==> IsCoin(c)
  {
    assert "Coin[]"[..4] == "Coin" && "Coin[]"[4..] == "[]";
    if v.Array? {
      forall c | c in v.elems ensures Conforms(t, "Coin", c) <==> IsCoin(c) {
        CoinConforms(t, c);
      }
    }
  }

  lemma FeeConforms(t: Table, v: Json)
    requires HasFixedTypes(t)
    ensures Conforms(t, "Fee", v) <==> IsFee(v)
  {
    assert t["Fee"] == BaseTypes()["Fee"];
    if v.Object? {
      ConformsToPair(t, "Fee", v, TypeField("amount", "Coin[]"), TypeField("gas", "string"));
      CoinsConform(t, Get(v, "amount"));
    }
  }

  lemma TxFields(t: Table)
    requires HasFixedTypes(t)
    ensures var tx := t["Tx"];
            && tx[0] == TypeField("account_number", "string") && tx[1] == TypeField("chain_id", "string")
            && tx[2] == TypeField("fee", "Fee") && tx[3] == TypeField("memo", "string")
            && tx[4] == TypeField("sequence", "string")
  {
    assert forall i :: 0 <= i < FIXED ==> t["Tx"][i] == t["Tx"][..FIXED][i];
  }

  lemma HeaderConforms(t: Table, v: Json)
    requires HasFixedTypes(t) && v.Object?
    ensures HasFields(t, v, t["Tx"], 0, FIXED) <==> HasHeader(v)
  {
    TxFields(t);
    FeeConforms(t, Get(v, "fee"));
    var tx := t["Tx"];
    assert HasFields(t, v, tx, 0, FIXED) <==>
           && HasTyped(t, v, tx[0]) && HasTyped(t, v, tx[1]) && HasTyped(t, v, tx[2])
           && HasTyped(t, v, tx[3]) && HasTyped(t, v, tx[4]);
  }

  lemma MessagesConform(t: Table, v: Json, n: nat)
    requires v.Object? && Built(t, v, n)
    ensures HasFields(t, v, t["Tx"], FIXED, FIXED + n) <==>
            HomogeneousMessages(v, n)
  {
    forall i: nat | i < n ensures HasTyped(t, v, t["Tx"][FIXED + i]) <==> Homogeneous(Get(v, MsgField(i))) {
      assert MessageTyped(t, v, i);
      MessageConformsIffHomogeneous(t, t["Tx"][FIXED + i].typ, Get(v, MsgField(i)));
    }
    if HomogeneousMessages(v, n) {
      forall i | FIXED <= i < FIXED + n ensures HasTyped(t, v, t["Tx"][i]) {
        assert Homogeneous(Get(v, MsgField(i - FIXED)));
      }
    }
  }

  lemma ListedInTx(t: Table, v: Json, n: nat, k: string)
    requires Built(t, v, n)
    ensures Listed(t["Tx"], k) <==> k in FIXED_FIELDS || IsMsgField(k, n)
  {
    TxFields(t);
    if i :| 0 <= i < |t["Tx"]| && t["Tx"][i].name == k {
      if i >= FIXED {
        assert MessageTyped(t, v, i - FIXED);
      }
    }
    if i: nat :| i < n && k == MsgField(i) {
      assert MessageTyped(t, v, i) && t["Tx"][FIXED + i].name == k;
    }
  }

  ghost predicate HomogeneousMessages(v: Json, n: nat) {
    forall i: nat :: i < n ==> Homogeneous(Get(v, MsgField(i)))
  }

  // No representable field but the header and n messages.
  ghost predicate OnlyTxKeys(v: Json, n: nat)
    requires v.Object?
  {
    forall k :: Represented(v.fields, k) ==> k in FIXED_FIELDS || IsMsgField(k, n)
  }

  // A payload is a value of Tx exactly when its header is well formed, its messages are homogeneous and it has no
  // other representable field.
  lemma PayloadConforms(t: Table, v: Json, n: nat)
    requires v.Object? && Built(t, v, n)
    ensures Conforms(t, "Tx", v) <==> HasHeader(v) && HomogeneousMessages(v, n) && OnlyTxKeys(v, n)
  {
    HeaderConforms(t, v);
    MessagesConform(t, v, n);
    ConformsToObject(t, "Tx", v);
    SplitFields(t, v, t["Tx"], FIXED);
    forall k ensures Listed(t["Tx"], k) <==> k in FIXED_FIELDS || IsMsgField(k, n) {
      ListedInTx(t, v, n, k);
    }
  }

  lemma SplitFields(t: Table, v: Json, types: seq<TypeField>, m: nat)
    requires v.Object? && m <= |types|
    ensures HasFields(t, v, types, 0, |types|) <==> HasFields(t, v, types, 0, m) && HasFields(t, v, types, m, |types|)
  {
  }

  function Flat(payload: Json, msgs: seq<Json>): Json
    requires payload.Object?
  {
    Object(WithoutMsgs(payload.fields) + MsgFields(msgs))
  }

  lemma FlatKeepsWords(payload: Json, msgs: seq<Json>)
    requires payload.Object? && WordKeys(payload) && PayloadMessages(payload) == Ok(msgs)
    ensures WordKeys(Flat(payload, msgs))
  {
    var fields := Flat(payload, msgs).fields;
    var list := payload.fields[IndexOf(payload.fields, "msgs")];
    assert list in payload.fields && WordKeys(list.value);
    forall f | f in fields ensures IsWord(f.name) && WordKeys(f.value) {
      if f !in payload.fields {
        var i :| 0 <= i < |msgs| && f == Field(MsgField(i), msgs[i]);
        MsgFieldIsWord(i);
        assert msgs[i] in msgs;
      }
    }
  }

  lemma FlatKeepsHeader(payload: Json, msgs: seq<Json>)
    requires payload.Object? && PayloadMessages(payload) == Ok(msgs)
    requires forall i: nat :: i < |msgs| ==> Accepts(payload, msgs, i)
    ensures HasHeader(Flat(payload, msgs)) <==> HasHeader(payload)
  {
    forall k | k in FIXED_FIELDS ensures Get(Flat(payload, msgs), k) == Get(payload, k) {
      FlattenedLookup(payload, msgs, k);
      forall i: nat | i < |msgs| ensures k != MsgField(i) {
        MsgFieldIsWord(i);
      }
    }
    assert FIXED_FIELDS == {"account_number", "chain_id", "fee", "memo", "sequence"};
  }

  lemma FlatKeepsOtherKeys(payload: Json, msgs: seq<Json>)
    requires payload.Object? && PayloadMessages(payload) == Ok(msgs)
    requires forall i: nat :: i < |msgs| ==> Accepts(payload, msgs, i)
    ensures OnlyTxKeys(Flat(payload, msgs), |msgs|) <==> OnlyKeys(Object(WithoutMsgs(payload.fields)), FIXED_FIELDS)
  {
    var rest, flat := WithoutMsgs(payload.fields), Flat(payload, msgs).fields;
    forall k ensures if IsMsgField(k, |msgs|) then !HasKey(rest, k)
                     else (Represented(flat, k) <==> Represented(rest, k))
    {
      LookupInParts(rest, MsgFields(msgs), k);
      LookupMsgField(msgs, k);
      if i: nat :| i < |msgs| && k == MsgField(i) {
        MsgFieldIsWord(i);
        LookupWithoutMsgs(payload.fields, k);
        assert Accepts(payload, msgs, i);
      }
    }
  }

  lemma FlatKeepsMessages(payload: Json, msgs: seq<Json>)
    requires payload.Object? && PayloadMessages(payload) == Ok(msgs)
    requires forall i: nat :: i < |msgs| ==> Accepts(payload, msgs, i)
    ensures HomogeneousMessages(Flat(payload, msgs), |msgs|) <==> forall i :: 0 <= i < |msgs| ==> Homogeneous(msgs[i])
  {
    forall i: nat | i < |msgs| ensures Get(Flat(payload, msgs), MsgField(i)) == msgs[i] {
      FlattenedLookup(payload, msgs, MsgField(i));
    }
  }

  lemma FlatIsBuilt(payload: Json, msgs: seq<Json>, t: Table)
    requires payload.Object? && WordKeys(payload) && PayloadMessages(payload) == Ok(msgs)
    requires AddMsgs(BaseTypes(), Flat(payload, msgs), 0, |msgs|) == Ok(t)
    ensures Built(t, Flat(payload, msgs), |msgs|)
  {
    FlatKeepsWords(payload, msgs);
    BaseIsClosed();
    MessagesAreBuilt(BaseTypes(), Flat(payload, msgs), 0, |msgs|);
  }

  // The typed data of a sign document are a value of their primary type exactly when the document's header is well
  // formed, the arrays in its messages are homogeneous and it has no field but the header and the messages.
  lemma SignDocConforms(payload: Json, msgs: seq<Json>, t: Table)
    requires payload.Object? && WordKeys(payload) && PayloadMessages(payload) == Ok(msgs)
    requires forall i: nat :: i < |msgs| ==> Accepts(payload, msgs, i)
    requires AddMsgs(BaseTypes(), Flat(payload, msgs), 0, |msgs|) == Ok(t)
    ensures Conforms(t, "Tx", Flat(payload, msgs)) <==>
            && HasHeader(payload) && (forall i :: 0 <= i < |msgs| ==> Homogeneous(msgs[i]))
            && OnlyKeys(Object(WithoutMsgs(payload.fields)), FIXED_FIELDS)
  {
    FlatIsBuilt(payload, msgs, t);
    PayloadConforms(t, Flat(payload, msgs), |msgs|);
    FlatKeepsHeader(payload, msgs);
    FlatKeepsMessages(payload, msgs);
    FlatKeepsOtherKeys(payload, msgs);
  }

  // ---------- The request ----------

  const TWO63: nat := 0x8000_0000_0000_0000
  const TWO64: nat := 0x1_0000_0000_0000_0000

  type uint64 = x: int | 0 <= x < TWO64

  // int64(x) of an unsigned integer.
  function ToInt64(x: uint64): int {
    if x < TWO63 then x else x - TWO64
  }

  // createEIP712Domain.
  function Domain(chainId: uint64): Json {
    Object([
      Field("name", Str("Cosmos Web3")), Field("version", Str("1.0.0")), Field("chainId", Number(ToInt64(chainId))),
      Field("verifyingContract", Str("cosmos")), Field("salt", Str("0"))])
  }

  lemma DomainFields(chainId: uint64)
    ensures var d := Domain(chainId);
            && Get(d, "name") == Str("Cosmos Web3") && Get(d, "version") == Str("1.0.0")
            && Get(d, "chainId") == Number(ToInt64(chainId))
            && Get(d, "verifyingContract") == Str("cosmos") && Get(d, "salt") == Str("0")
    ensures forall k :: HasKey(Domain(chainId).fields, k) ==>
              k in {"name", "version", "chainId", "verifyingContract", "salt"}
  {
    var fields := Domain(chainId).fields;
    LookupAt(fields, 0);
    LookupAt(fields, 1);
    LookupAt(fields, 2);
    LookupAt(fields, 3);
    LookupAt(fields, 4);
  }

  // The domain holds the chain id and is a value of its type exactly for chain ids of at most 63 bits.
  lemma DomainConformsIff(t: Table, chainId: uint64)
    requires HasFixedTypes(t)
    ensures Get(Domain(chainId), "chainId") == Number(chainId) <==> chainId < TWO63
    ensures Conforms(t, "EIP712Domain", Domain(chainId)) <==> chainId < TWO63
  {
    DomainFields(chainId);
    DomainTypes(t);
    ConformsToObject(t, "EIP712Domain", Domain(chainId));
    DomainTyped(t, Domain(chainId), ToInt64(chainId));
  }

  lemma DomainTypes(t: Table)
    requires HasFixedTypes(t)
    ensures var types := t["EIP712Domain"];
            && |types| == 5
            && types[0] == TypeField("name", "string") && types[1] == TypeField("version", "string")
            && types[2] == TypeField("chainId", "uint256") && types[3] == TypeField("verifyingContract", "string")
            && types[4] == TypeField("salt", "string")
    ensures forall k :: k in {"name", "version", "chainId", "verifyingContract", "salt"} ==>
              Listed(t["EIP712Domain"], k)
  {
    assert t["EIP712Domain"] == BaseTypes()["EIP712Domain"];
  }

  lemma DomainTyped(t: Table, v: Json, n: int)
    requires HasFixedTypes(t) && v.Object? && Get(v, "chainId") == Number(n)
    requires Get(v, "name").Str? && Get(v, "version").Str? && Get(v, "verifyingContract").Str? && Get(v, "salt").Str?
    ensures HasFields(t, v, t["EIP712Domain"], 0, |t["EIP712Domain"]|) <==> n >= 0
  {
    DomainTypes(t);
    assert HasTyped(t, v, t["EIP712Domain"][2]) <==> n >= 0;
  }

  datatype Request = Request(types: Table, primaryType: string, domain: Json, message: Json)

  // WrapTxToTypedData, from the parsed sign document on.
  method WrapTxToTypedData(chainId: uint64, payload: Json) returns (r: Result<Request, Error>)
    ensures !payload.Object? ==> r == Err(NotAnObject)
    ensures r.Ok? ==>
              && payload.Object? && PayloadMessages(payload).Ok?
              && var msgs := PayloadMessages(payload).value;
                 && (forall i: nat :: i < |msgs| ==> Accepts(payload, msgs, i))
                 && r.value.primaryType == "Tx" && r.value.domain == Domain(chainId)
                 && r.value.message == Flat(payload, msgs)
                 && AddMsgs(BaseTypes(), r.value.message, 0, |msgs|) == Ok(r.value.types)
    ensures payload.Object? && PayloadMessages(payload).Ok? ==>
              var msgs := PayloadMessages(payload).value;
              r.Ok? <==> (forall i: nat :: i < |msgs| ==> Accepts(payload, msgs, i))
                         && AddMsgs(BaseTypes(), Flat(payload, msgs), 0, |msgs|).Ok?
  {
    if !payload.Object? {
      return Err(NotAnObject);
    }
    var flattened := Flatten(payload);
    if flattened.Err? {
      return Err(flattened.error);
    }
    var (message, n) := flattened.value;
    var types := TypeMap.CreateEIP712Types(message, n);
    if types.Err? {
      return Err(types.error);
    }
    return Ok(Request(types.value, "Tx", Domain(chainId), message));
  }
}
