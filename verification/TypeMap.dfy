/** The schema builder as it runs: a shared map of types, filled in place. */
module TypeMap {
  import opened Common
  import opened Text
  import opened TypeTable
  import opened TypedData

  method TypesAreEqual(types1: seq<TypeField>, types2: seq<TypeField>) returns (equal: bool)
    ensures equal <==> types1 == types2
  {
    if |types1| != |types2| {
      return false;
    }
    for i := 0 to |types1|
      invariant types1[..i] == types2[..i]
    {
      if types1[i].name != types2[i].name || types1[i].typ != types2[i].typ {
        return false;
      }
    }
    assert types1[..|types1|] == types1 && types2[..|types2|] == types2;
    return true;
  }

  method SanitizeTypedef(str: string) returns (buf: string)
    ensures buf == Sanitize(str)
  {
    buf := "";
    var parts := Split(str, '.');
    for i := 0 to |parts|
      invariant buf + ConcatMap(SanitizePart, parts[i..]) == Sanitize(str)
    {
      NextPart(SanitizePart, buf, parts, i);
      ghost var before := buf;
      if parts[i] == "_" {
        buf := buf + "Type";
      } else {
        var subparts := Split(parts[i], '_');
        for j := 0 to |subparts|
          invariant buf + ConcatMap(Title, subparts[j..]) == before + SanitizePart(parts[i])
        {
          NextPart(Title, buf, subparts, j);
          buf := buf + Title(subparts[j]);
        }
      }
      assert buf == before + SanitizePart(parts[i]);
    }
  }

  ghost function Prepended(fields: seq<TypeField>, rest: (Table, Result<seq<TypeField>, Error>))
    : (Table, Result<seq<TypeField>, Error>)
  {
    (rest.0, if rest.1.Ok? then Ok(fields + rest.1.value) else rest.1)
  }

  lemma NothingPrepended(whole: (Table, Result<seq<TypeField>, Error>), keys: seq<string>)
    ensures whole == Prepended([], whole) && keys[0..] == keys
  {
    assert whole.1.Ok? ==> [] + whole.1.value == whole.1.value;
  }

  lemma Reassociate<T>(done: seq<T>, x: T, more: seq<T>)
    ensures done + ([x] + more) == (done + [x]) + more
  {
  }

  lemma NextField(t: Table, rootType: string, prefix: string, v: Json, keys: seq<string>, i: nat,
                  done: seq<TypeField>)
    requires v.Object? && i < |keys| && forall k :: 0 <= k < |keys| ==> HasKey(v.fields, keys[k])
    ensures var (t1, typ) := CompileField(t, rootType, prefix, keys[i], Get(v, keys[i]));
            Prepended(done, CompileFields(t, rootType, prefix, v, keys[i..])) ==
              if typ.Err? then (t1, Err(typ.error))
              else Prepended(if typ.value.None? then done else done + [TypeField(keys[i], typ.value.value)],
                             CompileFields(t1, rootType, prefix, v, keys[i+1..]))
  {
    var rest := keys[i..];
    assert rest[0] == keys[i] && rest[1..] == keys[i+1..] && HasKey(v.fields, keys[i]);
    var (t1, typ) := CompileField(t, rootType, prefix, keys[i], Get(v, keys[i]));
    if typ.Ok? && typ.value.Some? {
      var (t2, more) := CompileFields(t1, rootType, prefix, v, keys[i+1..]);
      if more.Ok? {
        Reassociate(done, TypeField(keys[i], typ.value.value), more.value);
      }
    }
  }

  class TypeMap {
    var types: Table

    constructor ()
      ensures types == BaseTypes()
    {
      types := BaseTypes();
    }

    method AddTypesToRoot(typeDef: string, toAdd: seq<TypeField>) returns (r: Result<string, Error>)
      modifies this
      ensures (types, r) == AddTypes(old(types), typeDef, toAdd)
    {
      var index := 0;
      while true
        invariant index < MAX_DUPLICATE_TYPE_DEFS && types == old(types)
        invariant AddFrom(types, typeDef, toAdd, index) == AddTypes(types, typeDef, toAdd)
        decreases MAX_DUPLICATE_TYPE_DEFS - index
      {
        var name := TypeDefWithIndex(typeDef, index);
        if name !in types {
          types := types[name := toAdd];
          return Ok(name);
        }
        var equal := TypesAreEqual(toAdd, types[name]);
        if equal {
          return Ok(name);
        }
        index := index + 1;
        if index == MAX_DUPLICATE_TYPE_DEFS {
          return Err(TooManyDuplicates);
        }
      }
    }

    method RecursivelyAddTypesToRoot(rootType: string, prefix: string, payload: Json) returns (r: Result<string, Error>)
      modifies this
      ensures (types, r) == Compile(old(types), rootType, prefix, payload)
      decreases payload, 2
    {
      if !payload.Object? {
        return Err(NotAnObject);
      }
      var keys := SortedKeys(payload.fields);
      SortedKeysAreTheKeys(payload.fields);
      var typesToAdd: seq<TypeField> := [];
      ghost var whole := CompileFields(types, rootType, prefix, payload, keys);
      NothingPrepended(whole, keys);
      for i := 0 to |keys|
        invariant whole == Prepended(typesToAdd, CompileFields(types, rootType, prefix, payload, keys[i..]))
      {
        assert HasKey(payload.fields, keys[i]);
        NextField(types, rootType, prefix, payload, keys, i, typesToAdd);
        var typ := FieldType(rootType, prefix, keys[i], Get(payload, keys[i]));
        if typ.Err? {
          return Err(typ.error);
        }
        if typ.value.Some? {
          typesToAdd := typesToAdd + [TypeField(keys[i], typ.value.value)];
        }
      }
      assert keys[|keys|..] == [] && typesToAdd + [] == typesToAdd;
      r := AddTypesToRoot(TypeDefForPrefix(prefix, rootType), typesToAdd);
    }

    // One round of the loop over the fields.
    method FieldType(rootType: string, prefix: string, name: string, value: Json)
      returns (r: Result<Option<string>, Error>)
      modifies this
      ensures (types, r) == CompileField(old(types), rootType, prefix, name, value)
      decreases value, 3
    {
      var field, isCollection := value, false;
      if value.Array? {
        if value.elems == [] {
          return Ok(Some("string[]"));
        }
        field, isCollection := value.elems[0], true;
      }
      var ethType := EthTypeForJson(field);
      if ethType.Some? {
        return Ok(Some(ethType.value + Suffix(isCollection)));
      }
      if !field.Object? {
        return Ok(None);
      }
      var key := RecursivelyAddTypesToRoot(rootType, PrefixForSubField(prefix, name), field);
      if key.Err? {
        return Err(key.error);
      }
      var typedef := SanitizeTypedef(key.value);
      return Ok(Some(typedef + Suffix(isCollection)));
    }

    method AddMsgTypesToRoot(field: string, msg: Json) returns (r: Result<string, Error>)
      modifies this
      ensures (types, r) == AddMsg(old(types), field, msg)
    {
      if !msg.Object? {
        return Err(NotAnObject);
      }
      var root := MsgRootType(msg);
      if root.Err? {
        return root;
      }
      r := RecursivelyAddTypesToRoot(root.value, "_", msg);
      if r.Ok? {
        types := AddToTx(types, field, r.value);
      }
    }
  }

  method CreateEIP712Types(payload: Json, n: nat) returns (r: Result<Table, Error>)
    ensures r == AddMsgs(BaseTypes(), payload, 0, n)
  {
    var typeMap := new TypeMap();
    for i := 0 to n
      invariant AddMsgs(typeMap.types, payload, i, n) == AddMsgs(BaseTypes(), payload, 0, n)
    {
      var key := typeMap.AddMsgTypesToRoot(MsgField(i), Get(payload, MsgField(i)));
      if key.Err? {
        return Err(key.error);
      }
    }
    return Ok(typeMap.types);
  }
}
