/** What the generated types promise about a message, and the table built for a whole payload. */
module TypedData {
  import opened Common
  import opened Text
  import opened TypeTable

  // ---------- Values of a type ----------

  function Get(v: Json, name: string): (r: Json)
    ensures v.Object? && HasKey(v.fields, name) ==> r < v
  {
    if v.Object? && HasKey(v.fields, name) then
      assert v.fields[IndexOf(v.fields, name)] in v.fields;
      v.fields[IndexOf(v.fields, name)].value
    else Null
  }

  predicate IsCollection(ref: string) {
    |ref| > 2 && ref[|ref|-2..] == "[]"
  }

  // v is a value of the type that ref names in t: an object has a value of the listed type for every listed
  // field and no further representable field.
  ghost predicate Conforms(t: Table, ref: string, v: Json)
    decreases v
  {
    if IsAtomic(ref) then
      || (v.Bool? && ref == "bool") || (v.Str? && ref == "string")
      || (v.Number? && (ref == "int64" || (ref == "uint256" && v.n >= 0)))
    else if IsCollection(ref) then v.Array? && forall e :: e in v.elems ==> Conforms(t, ref[..|ref|-2], e)
    else
      && v.Object? && ref in t
      && (forall i :: 0 <= i < |t[ref]| ==>
            HasKey(v.fields, t[ref][i].name) && Conforms(t, t[ref][i].typ, Get(v, t[ref][i].name)))
      && (forall k :: HasKey(v.fields, k) && ShapeOf(Get(v, k)).Some? ==>
            exists i :: 0 <= i < |t[ref]| && t[ref][i].name == k)
  }

  // v has shape s, without reference to any table.
  ghost predicate Fits(s: Shape, v: Json)
    decreases s
  {
    match s
    case SBool => v.Bool?
    case SInt => v.Number?
    case SString => v.Str?
    case SArray(elem) => v.Array? && forall e :: e in v.elems ==> Fits(elem, e)
    case SObject(fields) =>
      && v.Object?
      && (forall i :: 0 <= i < |fields| ==>
            HasKey(v.fields, fields[i].name) && Fits(fields[i].shape, Get(v, fields[i].name)))
      && (forall k :: HasKey(v.fields, k) && ShapeOf(Get(v, k)).Some? ==>
            exists i :: 0 <= i < |fields| && fields[i].name == k)
  }

  lemma KindOfReference(t: Table, ref: string, s: Shape)
    requires Describes(t, ref, s)
    ensures IsAtomic(ref) <==> s.SBool? || s.SInt? || s.SString?
    ensures IsCollection(ref) <==> s.SArray?
  {
    match s
    case SObject(_) =>
      assert ref[0] == ref[..4][0] == 'T';
    case SArray(_) =>
      assert ref[|ref|-1] == ref[|ref|-2..][1] == ']';
    case _ =>
  }

  lemma {:induction false} ConformsIffFits(t: Table, ref: string, s: Shape, v: Json)
    requires Describes(t, ref, s)
    ensures Conforms(t, ref, v) <==> Fits(s, v)
    decreases s
  {
    KindOfReference(t, ref, s);
    match s
    case SArray(elem) =>
      if v.Array? {
        forall e | e in v.elems ensures Conforms(t, ref[..|ref|-2], e) <==> Fits(elem, e) {
          ConformsIffFits(t, ref[..|ref|-2], elem, e);
        }
      }
    case SObject(fields) =>
      forall i | 0 <= i < |fields|
        ensures Conforms(t, t[ref][i].typ, Get(v, t[ref][i].name)) <==> Fits(fields[i].shape, Get(v, fields[i].name))
      {
        ConformsIffFits(t, t[ref][i].typ, fields[i].shape, Get(v, fields[i].name));
      }
    case _ =>
  }

  // Every array that becomes part of a type holds values of its first element's shape.
  ghost predicate Homogeneous(v: Json) {
    match v
    case Array(elems) => elems != [] && ShapeOf(v).Some? ==> forall e :: e in elems ==> Fits(ShapeOf(elems[0]).value, e)
    case Object(fields) => forall k :: HasKey(fields, k) && ShapeOf(Get(v, k)).Some? ==> Homogeneous(Get(v, k))
    case _ => true
  }

  // The fields of an object's shape are its representable fields, each with its own shape.
  lemma {:induction false} ShapeFieldsAre(v: Json, keys: seq<string>)
    requires v.Object? && forall i :: 0 <= i < |keys| ==> HasKey(v.fields, keys[i])
    ensures forall f :: f in ShapeFields(v, keys) ==> f.name in keys && ShapeOf(Get(v, f.name)) == Some(f.shape)
    ensures forall k :: k in keys && ShapeOf(Get(v, k)).Some? ==>
              ShapeField(k, ShapeOf(Get(v, k)).value) in ShapeFields(v, keys)
  {
    if keys != [] {
      assert HasKey(v.fields, keys[0]);
      ShapeFieldsAre(v, keys[1..]);
    }
  }

  // A value has the shape computed from it exactly when its arrays are homogeneous.
  lemma {:induction false} FitsOwnShape(v: Json)
    requires ShapeOf(v).Some?
    ensures Fits(ShapeOf(v).value, v) <==> Homogeneous(v)
    decreases v
  {
    if v.Object? {
      SortedKeysAreTheKeys(v.fields);
      var keys := SortedKeys(v.fields);
      var fields := ShapeFields(v, keys);
      ShapeFieldsAre(v, keys);
      forall k | HasKey(v.fields, k) && ShapeOf(Get(v, k)).Some?
        ensures Fits(ShapeOf(Get(v, k)).value, Get(v, k)) <==> Homogeneous(Get(v, k))
      {
        FitsOwnShape(Get(v, k));
      }
      forall k | HasKey(v.fields, k) && ShapeOf(Get(v, k)).Some?
        ensures exists i :: 0 <= i < |fields| && fields[i].name == k
      {
        assert ShapeField(k, ShapeOf(Get(v, k)).value) in fields;
      }
      FitsFieldByField(v, fields);
    }
  }

  lemma FitsFieldByField(v: Json, fields: seq<ShapeField>)
    requires v.Object?
    requires forall f :: f in fields ==> HasKey(v.fields, f.name) && ShapeOf(Get(v, f.name)) == Some(f.shape)
    requires forall k :: HasKey(v.fields, k) && ShapeOf(Get(v, k)).Some? ==>
               && ShapeField(k, ShapeOf(Get(v, k)).value) in fields
               && (Fits(ShapeOf(Get(v, k)).value, Get(v, k)) <==> Homogeneous(Get(v, k)))
    requires forall k :: HasKey(v.fields, k) && ShapeOf(Get(v, k)).Some? ==>
               exists i :: 0 <= i < |fields| && fields[i].name == k
    ensures Fits(SObject(fields), v) <==> Homogeneous(v)
  {
    if Fits(SObject(fields), v) {
      forall k | HasKey(v.fields, k) && ShapeOf(Get(v, k)).Some? ensures Homogeneous(Get(v, k)) {
        var f := ShapeField(k, ShapeOf(Get(v, k)).value);
        var i :| 0 <= i < |fields| && fields[i] == f;
        assert Fits(fields[i].shape, Get(v, fields[i].name));
      }
    }
    if Homogeneous(v) {
      forall i | 0 <= i < |fields| ensures Fits(fields[i].shape, Get(v, fields[i].name)) {
        assert fields[i] in fields;
      }
    }
  }

  // A compiled message is a value of its generated type exactly when its arrays are homogeneous.
  lemma MessageConformsIffHomogeneous(t: Table, ref: string, v: Json)
    requires ShapeOf(v).Some? && Describes(t, ref, ShapeOf(v).value)
    ensures Conforms(t, ref, v) <==> Homogeneous(v)
  {
    ConformsIffFits(t, ref, ShapeOf(v).value, v);
    FitsOwnShape(v);
  }

  // An array of a string and a number is typed string[], and its second element is no string.
  lemma MixedArrayDoesNotConform(t: Table)
    ensures ShapeOf(Array([Str("a"), Number(1)])) == Some(SArray(SString))
    ensures Describes(t, "string[]", SArray(SString)) && !Conforms(t, "string[]", Array([Str("a"), Number(1)]))
  {
    CollectionOf(t, "string", SString);
    assert "string" + "[]" == "string[]";
    var elems := [Str("a"), Number(1)];
    assert elems[1] in elems && !Fits(SString, elems[1]);
    ConformsIffFits(t, "string[]", SArray(SString), Array(elems));
  }

  // ---------- Payloads ----------

  function BaseTypes(): Table {
    map[
      "EIP712Domain" := [
        TypeField("name", "string"), TypeField("version", "string"), TypeField("chainId", "uint256"),
        TypeField("verifyingContract", "string"), TypeField("salt", "string")],
      "Tx" := [
        TypeField("account_number", "string"), TypeField("chain_id", "string"), TypeField("fee", "Fee"),
        TypeField("memo", "string"), TypeField("sequence", "string")],
      "Fee" := [TypeField("amount", "Coin[]"), TypeField("gas", "string")],
      "Coin" := [TypeField("denom", "string"), TypeField("amount", "string")]
    ]
  }

  function MsgRootType(msg: Json): Result<string, Error> {
    match Get(msg, "type")
    case Str(s) =>
      if s == "" then Err(MalformedType)
      else
        var tokens := Split(s, '/');
        Ok("Type" + tokens[|tokens|-1])
    case _ => Err(MalformedType)
  }

  // cosmos-sdk/MsgSend -> TypeMsgSend: what stands behind the last slash names the type.
  lemma RootTypeAfterSlash(msg: Json, s: string, t: string)
    requires Get(msg, "type") == Str(s + "/" + t) && '/' !in t
    ensures MsgRootType(msg) == Ok("Type" + t)
  {
    SplitAtSeparator(s, '/', t);
    SplitWithoutSeparator(t, '/');
  }

  lemma RootTypeWithoutSlash(msg: Json, t: string)
    requires Get(msg, "type") == Str(t) && '/' !in t
    ensures MsgRootType(msg) == if t == "" then Err(MalformedType) else Ok("Type" + t)
  {
    SplitWithoutSeparator(t, '/');
  }

  function AddToTx(t: Table, field: string, typ: string): Table {
    t["Tx" := (if "Tx" in t then t["Tx"] else []) + [TypeField(field, typ)]]
  }

  function AddMsg(t: Table, field: string, msg: Json): (Table, Result<string, Error>) {
    if !msg.Object? then (t, Err(NotAnObject))
    else
      match MsgRootType(msg)
      case Err(e) => (t, Err(e))
      case Ok(root) =>
        var (t1, key) := Compile(t, root, "_", msg);
        if key.Err? then (t1, key) else (AddToTx(t1, field, key.value), key)
  }

  function MsgField(i: nat): string {
    "msg" + Itoa(i)
  }

  // The table after messages i to n, or the error that stops the loop.
  function AddMsgs(t: Table, payload: Json, i: nat, n: nat): Result<Table, Error>
    requires i <= n
    decreases n - i
  {
    if i == n then Ok(t)
    else
      var (t', key) := AddMsg(t, MsgField(i), Get(payload, MsgField(i)));
      if key.Err? then Err(key.error) else AddMsgs(t', payload, i + 1, n)
  }

  // Adding a message again gives it the same type and changes only Tx.
  lemma AddMsgAgain(t: Table, field: string, msg: Json, later: Table, field': string)
    requires AddMsg(t, field, msg).1.Ok? && KeepsNumbered(AddMsg(t, field, msg).0, later)
    ensures AddMsg(later, field', msg) ==
            (AddToTx(later, field', AddMsg(t, field, msg).1.value), AddMsg(t, field, msg).1)
  {
    CompileAgain(t, MsgRootType(msg).value, "_", msg, later);
  }

  const FIXED: nat := 5

  ghost predicate HasFixedTypes(t: Table) {
    && (forall k :: k in {"EIP712Domain", "Fee", "Coin"} ==> k in t && t[k] == BaseTypes()[k])
    && "Tx" in t && |t["Tx"]| >= FIXED && t["Tx"][..FIXED] == BaseTypes()["Tx"]
  }

  // Message i has its own field in Tx, whose type is named after the message's root type, with an index, and is
  // exactly the message's shape.
  ghost predicate MessageTyped(t: Table, payload: Json, i: nat) {
    var msg := Get(payload, MsgField(i));
    && "Tx" in t && FIXED + i < |t["Tx"]|
    && t["Tx"][FIXED + i].name == MsgField(i)
    && MsgRootType(msg).Ok? && IsIndexed(t["Tx"][FIXED + i].typ, MsgRootType(msg).value)
    && msg.Object? && ShapeOf(msg).Some? && Describes(t, t["Tx"][FIXED + i].typ, ShapeOf(msg).value)
  }

  ghost predicate ConformsIffHomogeneous(t: Table, payload: Json, i: nat) {
    var msg := Get(payload, MsgField(i));
    && "Tx" in t && FIXED + i < |t["Tx"]|
    && (Conforms(t, t["Tx"][FIXED + i].typ, msg) <==> Homogeneous(msg))
  }

  ghost predicate Built(t: Table, payload: Json, n: nat) {
    && Closed(t) && HasFixedTypes(t) && |t["Tx"]| == FIXED + n
    && forall i: nat :: i < n ==> MessageTyped(t, payload, i)
  }

  lemma BaseIsClosed()
    ensures Closed(BaseTypes()) && HasFixedTypes(BaseTypes()) && |BaseTypes()["Tx"]| == FIXED
  {
    var t := BaseTypes();
    assert "Coin[]"[..4] == "Coin" && "Coin[]"[4..] == "[]";
    assert Resolves(t, "Coin[]") && Resolves(t, "string") && Resolves(t, "uint256") && Resolves(t, "Fee");
  }

  lemma TxKeepsClosed(t: Table, field: string, typ: string)
    requires Closed(t) && "Tx" in t && Resolves(t, typ)
    ensures Closed(AddToTx(t, field, typ))
  {
    var t': Table := AddToTx(t, field, typ);
    forall k, i | k in t' && 0 <= i < |t'[k]| ensures Resolves(t', t'[k][i].typ) {
      if k != "Tx" || i < |t["Tx"]| {
        assert Resolves(t, t[k][i].typ);
      }
    }
  }

  lemma MessagesStayTyped(t: Table, t': Table, payload: Json, n: nat)
    requires forall i: nat :: i < n ==> MessageTyped(t, payload, i)
    requires KeepsNumbered(t, t') && "Tx" in t && "Tx" in t' && t["Tx"] <= t'["Tx"]
    ensures forall i: nat :: i < n ==> MessageTyped(t', payload, i)
  {
    forall i: nat | i < n ensures MessageTyped(t', payload, i) {
      assert MessageTyped(t, payload, i);
      DescribesIsStable(t, t', t["Tx"][FIXED + i].typ, ShapeOf(Get(payload, MsgField(i))).value);
    }
  }

  lemma TxGrows(t: Table, t1: Table, key: string, payload: Json, n: nat)
    requires Built(t, payload, n) && Extends(t, t1) && Closed(t1)
    requires var msg := Get(payload, MsgField(n));
             && msg.Object? && ShapeOf(msg).Some? && Describes(t1, key, ShapeOf(msg).value)
             && MsgRootType(msg).Ok? && IsIndexed(key, MsgRootType(msg).value)
    ensures Built(AddToTx(t1, MsgField(n), key), payload, n + 1)
  {
    var t' := AddToTx(t1, MsgField(n), key);
    TxKeepsClosed(t1, MsgField(n), key);
    assert t'["Tx"][..FIXED] == t["Tx"][..FIXED];
    MessagesStayTyped(t, t', payload, n);
    DescribesIsStable(t1, t', key, ShapeOf(Get(payload, MsgField(n))).value);
    assert MessageTyped(t', payload, n);
  }

  lemma AddMsgIsSound(t: Table, payload: Json, n: nat)
    requires Built(t, payload, n) && WordKeys(payload)
    ensures var (t', key) := AddMsg(t, MsgField(n), Get(payload, MsgField(n)));
            key.Ok? ==> Built(t', payload, n + 1)
  {
    var msg := Get(payload, MsgField(n));
    var (t', key) := AddMsg(t, MsgField(n), msg);
    if key.Ok? {
      var root := MsgRootType(msg).value;
      assert root[..4] == "Type";
      assert payload.fields[IndexOf(payload.fields, MsgField(n))] in payload.fields;
      CompileIsSound(t, root, "_", msg);
      CompiledName(t, root, "_", msg);
      TxGrows(t, Compile(t, root, "_", msg).0, key.value, payload, n);
    }
  }

  lemma {:induction false} MessagesAreBuilt(t: Table, payload: Json, i: nat, n: nat)
    requires i <= n && Built(t, payload, i) && WordKeys(payload)
    ensures AddMsgs(t, payload, i, n).Ok? ==> Built(AddMsgs(t, payload, i, n).value, payload, n)
    decreases n - i
  {
    if i < n {
      AddMsgIsSound(t, payload, i);
      var (t', key) := AddMsg(t, MsgField(i), Get(payload, MsgField(i)));
      if key.Ok? {
        MessagesAreBuilt(t', payload, i + 1, n);
      }
    }
  }

  // The schema of a whole payload is closed, keeps the fixed types, and lists every message in order under a
  // type of exactly its shape. A message is a value of its type exactly when its arrays are homogeneous.
  lemma SchemaIsSound(payload: Json, n: nat)
    requires WordKeys(payload) && AddMsgs(BaseTypes(), payload, 0, n).Ok?
    ensures var t := AddMsgs(BaseTypes(), payload, 0, n).value;
            && Built(t, payload, n)
            && forall i: nat :: i < n ==> MessageTyped(t, payload, i) && ConformsIffHomogeneous(t, payload, i)
  {
    BaseIsClosed();
    MessagesAreBuilt(BaseTypes(), payload, 0, n);
    var t := AddMsgs(BaseTypes(), payload, 0, n).value;
    forall i: nat | i < n ensures ConformsIffHomogeneous(t, payload, i) {
      assert MessageTyped(t, payload, i);
      MessageConformsIffHomogeneous(t, t["Tx"][FIXED + i].typ, Get(payload, MsgField(i)));
    }
  }
}
