/** The EIP-712 schema builder of ethereum/eip712/types.go: a recursive compiler from a JSON message to
    entries of a shared type table. */
module TypeTable {
  import opened Common
  import opened Text

  // ---------- JSON ----------

  datatype Field = Field(name: string, value: Json)

  datatype Json =
    | Null
    | Bool(b: bool)
    | Number(n: int)
    | Str(s: string)
    | Array(elems: seq<Json>)
    | Object(fields: seq<Field>)

  // The position of the first field with the given name.
  function IndexOf(fields: seq<Field>, name: string): (i: nat)
    ensures i <= |fields| && (i < |fields| ==> fields[i].name == name)
    ensures i == |fields| ==> forall f :: f in fields ==> f.name != name
  {
    if fields == [] then 0 else if fields[0].name == name then 0 else 1 + IndexOf(fields[1..], name)
  }

  predicate HasKey(fields: seq<Field>, name: string) {
    IndexOf(fields, name) < |fields|
  }

  // sortedJSONKeys: the distinct keys, in descending order.
  function SortedKeys(fields: seq<Field>): seq<string> {
    if fields == [] then [] else Insert(fields[|fields|-1].name, SortedKeys(fields[..|fields|-1]))
  }

  lemma {:induction false} SortedKeysAreTheKeys(fields: seq<Field>)
    ensures Descending(SortedKeys(fields))
    ensures forall k :: k in SortedKeys(fields) <==> HasKey(fields, k)
  {
    if fields != [] {
      var init, last := fields[..|fields|-1], fields[|fields|-1].name;
      SortedKeysAreTheKeys(init);
      InsertKeepsDescending(last, SortedKeys(init));
      InsertMembers(last, SortedKeys(init));
      forall k ensures HasKey(fields, k) <==> k == last || HasKey(init, k) {
        assert fields == init + [fields[|fields|-1]];
        assert fields[|fields|-1] in fields && forall f :: f in init ==> f in fields;
        if HasKey(init, k) {
          assert init[IndexOf(init, k)] in fields;
        }
        if HasKey(fields, k) {
          assert fields[IndexOf(fields, k)] in init || k == last;
        }
      }
    }
  }

  // ---------- Shapes: what a type means ----------

  datatype ShapeField = ShapeField(name: string, shape: Shape)

  datatype Shape = SBool | SInt | SString | SArray(elem: Shape) | SObject(fields: seq<ShapeField>)

  // Which fields are listed: those that hold a boolean, a number, a string, an object, an empty array or an array
  // that starts with one of the four.
  lemma RepresentableIff(v: Json)
    ensures ShapeOf(v).Some? <==>
            (v.Bool? || v.Number? || v.Str? || v.Object?) ||
            (v.Array? && (v.elems == [] || !(v.elems[0].Null? || v.elems[0].Array?)))
  {
    if v.Array? && v.elems != [] {
      assert ShapeOf(v.elems[0]).Some? || v.elems[0].Null? || v.elems[0].Array?;
    }
  }

  // The shape of the values EIP-712 can represent here: null, arrays of arrays and arrays that start with
  // null have none, and an array takes the shape of its first element.
  function ShapeOf(v: Json): Option<Shape>
    decreases v, 1, 0
  {
    match v
    case Null => None
    case Bool(_) => Some(SBool)
    case Number(_) => Some(SInt)
    case Str(_) => Some(SString)
    case Array(elems) =>
      if elems == [] then Some(SArray(SString))
      else if elems[0].Array? then None
      else (match ShapeOf(elems[0]) case None => None case Some(s) => Some(SArray(s)))
    case Object(fields) =>
      SortedKeysAreTheKeys(fields);
      Some(SObject(ShapeFields(v, SortedKeys(fields))))
  }

  // The representable fields among the given keys, in their order.
  function ShapeFields(v: Json, keys: seq<string>): seq<ShapeField>
    requires v.Object? && forall i :: 0 <= i < |keys| ==> HasKey(v.fields, keys[i])
    decreases v, 0, |keys|
  {
    if keys == [] then []
    else
      var rest := ShapeFields(v, keys[1..]);
      assert HasKey(v.fields, keys[0]);
      match ShapeOf(v.fields[IndexOf(v.fields, keys[0])].value)
      case None => rest
      case Some(s) => [ShapeField(keys[0], s)] + rest
  }

  // ---------- Type tables ----------

  datatype TypeField = TypeField(name: string, typ: string)

  type Table = map<string, seq<TypeField>>

  datatype Error = NotAnObject | TooManyDuplicates | MalformedType | NoMessages | NotAnArray | KeyTaken

  const MAX_DUPLICATE_TYPE_DEFS: nat := 1000

  // Every name that addTypesToRoot makes up ends in a digit.
  predicate IsNumbered(name: string) {
    |name| > 0 && IsDigit(name[|name|-1])
  }

  predicate IsGenerated(name: string) {
    IsNumbered(name) && |name| > 4 && name[..4] == "Type"
  }

  // ref names, in table t, exactly the values of shape s.
  ghost predicate Describes(t: Table, ref: string, s: Shape)
    decreases s
  {
    match s
    case SBool => ref == "bool"
    case SInt => ref == "int64"
    case SString => ref == "string"
    case SArray(e) => |ref| > 2 && ref[|ref|-2..] == "[]" && Describes(t, ref[..|ref|-2], e)
    case SObject(fields) =>
      && IsGenerated(ref) && ref in t && |t[ref]| == |fields|
      && forall i :: 0 <= i < |fields| ==>
           t[ref][i].name == fields[i].name && Describes(t, t[ref][i].typ, fields[i].shape)
  }

  ghost predicate Extends(t: Table, t': Table) {
    forall k :: k in t ==> k in t' && t'[k] == t[k]
  }

  // The numbered entries are kept; the one for Tx may differ.
  ghost predicate KeepsNumbered(t: Table, t': Table) {
    forall k :: k in t && IsNumbered(k) ==> k in t' && t'[k] == t[k]
  }

  lemma {:induction false} DescribesIsStable(t: Table, t': Table, ref: string, s: Shape)
    requires Describes(t, ref, s) && KeepsNumbered(t, t')
    ensures Describes(t', ref, s)
    decreases s
  {
    match s
    case SArray(e) =>
      DescribesIsStable(t, t', ref[..|ref|-2], e);
    case SObject(fields) =>
      forall i | 0 <= i < |fields| ensures Describes(t', t'[ref][i].typ, fields[i].shape) {
        DescribesIsStable(t, t', t[ref][i].typ, fields[i].shape);
      }
    case _ =>
  }

  // ---------- Names ----------

  // foo_bar -> FooBar
  function Camel(part: string): string {
    ConcatMap(Title, Split(part, '_'))
  }

  function SanitizePart(part: string): string {
    if part == "_" then "Type" else Camel(part)
  }

  function Sanitize(s: string): string {
    ConcatMap(SanitizePart, Split(s, '.'))
  }

  function TypeDefForPrefix(prefix: string, rootType: string): string {
    if prefix == "_" then rootType else Sanitize(prefix)
  }

  function PrefixForSubField(prefix: string, name: string): string {
    prefix + "." + name
  }

  // Letters, digits and underscores.
  ghost predicate IsWord(s: string) {
    forall c :: c in s ==> IsAlnum(c) || c == '_'
  }

  // "_" followed by dotted words: the path of a nested object.
  ghost predicate IsPath(s: string) {
    && |s| >= 1 && s[0] == '_' && (|s| > 1 ==> s[1] == '.')
    && forall c :: c in s ==> IsAlnum(c) || c == '_' || c == '.'
  }

  lemma {:induction false} SanitizedPartsAreAlnum(parts: seq<string>)
    requires forall p :: p in parts ==> IsWord(p)
    ensures AllAlnum(ConcatMap(SanitizePart, parts))
  {
    if parts != [] {
      SanitizedPartsAreAlnum(parts[1..]);
      var subparts := Split(parts[0], '_');
      SplitCharacters(parts[0], '_');
      assert parts[0] in parts;
      JoinedTitlesAreAlnum(subparts);
    }
  }

  lemma SanitizedPath(s: string)
    requires IsPath(s)
    ensures AllAlnum(Sanitize(s)) && |Sanitize(s)| >= 4 && Sanitize(s)[..4] == "Type"
  {
    var parts := Split(s, '.');
    SplitCharacters(s, '.');
    SanitizedPartsAreAlnum(parts);
    assert Split(s[1..], '.')[0] == "" && ['_'] + "" == "_";
    assert parts[0] == "_";
  }

  // A sanitized name with an index survives being sanitized again.
  lemma SanitizeIsStable(s: string, k: nat)
    requires IsPath(s)
    ensures Sanitize(Sanitize(s) + Itoa(k)) == Sanitize(s) + Itoa(k)
    ensures IsGenerated(Sanitize(s) + Itoa(k))
  {
    SanitizedPath(s);
    var name := Sanitize(s) + Itoa(k);
    assert AllAlnum(name) by {
      assert forall c :: c in Itoa(k) ==> IsDigit(c);
    }
    assert name[0] == Sanitize(s)[..4][0] == 'T';
    SplitWithoutSeparator(name, '.');
    SplitWithoutSeparator(name, '_');
    assert Title(name) == ['T'] + name[1..] == name;
    ConcatMapOfOne(Title, name);
    ConcatMapOfOne(SanitizePart, name);
    assert name[..4] == Sanitize(s)[..4];
  }

  // A word without underscores gets its first letter in upper case; words between underscores are joined.
  lemma CamelWord(w: string)
    requires '_' !in w
    ensures Camel(w) == Title(w)
  {
    SplitWithoutSeparator(w, '_');
    ConcatMapOfOne(Title, w);
  }

  lemma CamelWords(a: string, b: string)
    ensures Camel(a + "_" + b) == Camel(a) + Camel(b)
  {
    SplitAtSeparator(a, '_', b);
    ConcatMapOfParts(Title, Split(a, '_'), Split(b, '_'));
  }

  // The name of a nested object's type is that of the enclosing path followed by the field's own name.
  lemma SubFieldName(prefix: string, name: string)
    ensures Sanitize(PrefixForSubField(prefix, name)) == Sanitize(prefix) + Sanitize(name)
  {
    SplitAtSeparator(prefix, '.', name);
    ConcatMapOfParts(SanitizePart, Split(prefix, '.'), Split(name, '.'));
  }

  // The root is called Type, and a field by its name in camel case.
  lemma NameOfOnePart(name: string)
    requires '.' !in name
    ensures Sanitize(name) == if name == "_" then "Type" else Camel(name)
  {
    SplitWithoutSeparator(name, '.');
    ConcatMapOfOne(SanitizePart, name);
  }

  // foo_bar -> FooBar
  lemma CamelPair(foo: string, bar: string)
    requires '_' !in foo && '_' !in bar
    ensures Camel(foo + "_" + bar) == Title(foo) + Title(bar)
  {
    CamelWords(foo, bar);
    CamelWord(foo);
    CamelWord(bar);
  }

  // _.foo_bar.baz -> TypeFooBarBaz
  lemma PathName(a: string, b: string)
    requires '.' !in a && '.' !in b && a != "_" && b != "_"
    ensures Sanitize(PrefixForSubField(PrefixForSubField("_", a), b)) == "Type" + Camel(a) + Camel(b)
  {
    SubFieldName(PrefixForSubField("_", a), b);
    SubFieldName("_", a);
    NameOfOnePart("_");
    NameOfOnePart(a);
    NameOfOnePart(b);
  }

  // ---------- Inserting a definition ----------

  function TypeDefWithIndex(typeDef: string, index: nat): string {
    typeDef + Itoa(index)
  }

  // addTypesToRoot from index k on: the first indexed name that is free or already holds these types.
  function AddFrom(t: Table, typeDef: string, types: seq<TypeField>, k: nat): (r: (Table, Result<string, Error>))
    ensures Extends(t, r.0)
    decreases MAX_DUPLICATE_TYPE_DEFS - k
  {
    var name := TypeDefWithIndex(typeDef, k);
    if name in t && t[name] == types then (t, Ok(name))
    else if name !in t then (t[name := types], Ok(name))
    else if k + 1 >= MAX_DUPLICATE_TYPE_DEFS then (t, Err(TooManyDuplicates))
    else AddFrom(t, typeDef, types, k + 1)
  }

  function AddTypes(t: Table, typeDef: string, types: seq<TypeField>): (r: (Table, Result<string, Error>))
    ensures Extends(t, r.0)
  {
    AddFrom(t, typeDef, types, 0)
  }

  // A successful insertion extends the table by at most the returned name, which then holds the types.
  lemma {:induction false} AddFromExtends(t: Table, typeDef: string, types: seq<TypeField>, k: nat)
    ensures var (t', r) := AddFrom(t, typeDef, types, k);
            && (r.Ok? ==> (exists i: nat :: r.value == TypeDefWithIndex(typeDef, i)) && t' == t[r.value := types])
            && (r.Err? ==> t' == t)
    decreases MAX_DUPLICATE_TYPE_DEFS - k
  {
    var name := TypeDefWithIndex(typeDef, k);
    if name in t && t[name] == types {
      assert t == t[name := types];
    } else if name in t && k + 1 < MAX_DUPLICATE_TYPE_DEFS {
      AddFromExtends(t, typeDef, types, k + 1);
    }
  }

  // The name can take the types: it is free, or it holds them already.
  ghost predicate CanHold(t: Table, name: string, types: seq<TypeField>) {
    name !in t || t[name] == types
  }

  // The insertion takes the first indexed name that can hold the types.
  lemma {:induction false} AddFromTakesFirst(t: Table, typeDef: string, types: seq<TypeField>, k: nat, i: nat)
    requires k <= i < MAX_DUPLICATE_TYPE_DEFS && CanHold(t, typeDef + Itoa(i), types)
    requires forall j :: k <= j < i ==> !CanHold(t, typeDef + Itoa(j), types)
    ensures AddFrom(t, typeDef, types, k) == (t[typeDef + Itoa(i) := types], Ok(typeDef + Itoa(i)))
    decreases i - k
  {
    var name := typeDef + Itoa(k);
    if k < i {
      assert !CanHold(t, name, types);
      AddFromTakesFirst(t, typeDef, types, k + 1, i);
    } else if name in t {
      assert t == t[name := types];
    }
  }

  // name is typeDef followed by a decimal index.
  ghost predicate IsIndexed(name: string, typeDef: string) {
    exists k: nat :: k < MAX_DUPLICATE_TYPE_DEFS && name == typeDef + Itoa(k)
  }

  lemma {:induction false} AddFromIndexes(t: Table, typeDef: string, types: seq<TypeField>, k: nat)
    requires k < MAX_DUPLICATE_TYPE_DEFS
    ensures AddFrom(t, typeDef, types, k).1.Ok? ==> IsIndexed(AddFrom(t, typeDef, types, k).1.value, typeDef)
    decreases MAX_DUPLICATE_TYPE_DEFS - k
  {
    if k + 1 < MAX_DUPLICATE_TYPE_DEFS {
      AddFromIndexes(t, typeDef, types, k + 1);
    }
  }

  // In any table that has kept the result, the insertion finds it again and changes nothing.
  lemma {:induction false} AddFromAgain(t: Table, typeDef: string, types: seq<TypeField>, k: nat, later: Table)
    requires AddFrom(t, typeDef, types, k).1.Ok? && KeepsNumbered(AddFrom(t, typeDef, types, k).0, later)
    ensures AddFrom(later, typeDef, types, k) == (later, AddFrom(t, typeDef, types, k).1)
    decreases MAX_DUPLICATE_TYPE_DEFS - k
  {
    AddFromExtends(t, typeDef, types, k);
    var name := TypeDefWithIndex(typeDef, k);
    if name in t && t[name] != types {
      AddFromAgain(t, typeDef, types, k + 1, later);
    }
  }

  // ---------- The compiler ----------

  function EthTypeForJson(v: Json): Option<string> {
    match v
    case Bool(_) => Some("bool")
    case Number(_) => Some("int64")
    case Str(_) => Some("string")
    case _ => None
  }

  function Suffix(isCollection: bool): string {
    if isCollection then "[]" else ""
  }

  // recursivelyAddTypesToRoot: the table after it and the key of the object's definition.
  function Compile(t: Table, rootType: string, prefix: string, v: Json): (r: (Table, Result<string, Error>))
    ensures Extends(t, r.0)
    decreases v, 2, 0
  {
    if !v.Object? then (t, Err(NotAnObject))
    else
      SortedKeysAreTheKeys(v.fields);
      var (t1, types) := CompileFields(t, rootType, prefix, v, SortedKeys(v.fields));
      match types
      case Err(e) => (t1, Err(e))
      case Ok(fields) => AddTypes(t1, TypeDefForPrefix(prefix, rootType), fields)
  }

  // The loop over the sorted keys.
  function CompileFields(t: Table, rootType: string, prefix: string, v: Json, keys: seq<string>)
    : (r: (Table, Result<seq<TypeField>, Error>))
    requires v.Object? && forall i :: 0 <= i < |keys| ==> HasKey(v.fields, keys[i])
    ensures Extends(t, r.0)
    decreases v, 1, |keys|
  {
    if keys == [] then (t, Ok([]))
    else
      assert HasKey(v.fields, keys[0]);
      var (t1, typ) := CompileField(t, rootType, prefix, keys[0], v.fields[IndexOf(v.fields, keys[0])].value);
      if typ.Err? then (t1, Err(typ.error))
      else
        var (t2, rest) := CompileFields(t1, rootType, prefix, v, keys[1..]);
        match rest
        case Err(e) => (t2, Err(e))
        case Ok(fields) =>
          (t2, Ok(if typ.value.None? then fields else [TypeField(keys[0], typ.value.value)] + fields))
  }

  // One field's type, or None when the field is left out.
  function CompileField(t: Table, rootType: string, prefix: string, name: string, v: Json)
    : (r: (Table, Result<Option<string>, Error>))
    ensures Extends(t, r.0)
    decreases v, 3, 0
  {
    if v == Array([]) then (t, Ok(Some("string[]")))
    else
      var isCollection := v.Array?;
      var field := if v.Array? then v.elems[0] else v;
      var ethType := EthTypeForJson(field);
      if ethType.Some? then (t, Ok(Some(ethType.value + Suffix(isCollection))))
      else if field.Object? then
        var (t1, key) := Compile(t, rootType, PrefixForSubField(prefix, name), field);
        match key
        case Err(e) => (t1, Err(e))
        case Ok(k) => (t1, Ok(Some(Sanitize(k) + Suffix(isCollection))))
      else (t, Ok(None))
  }

  // ---------- Compiling again ----------

  // The insertion fails exactly when every numbered name is taken by other types.
  lemma {:induction false} AddFromFails(t: Table, typeDef: string, types: seq<TypeField>, k: nat)
    requires k < MAX_DUPLICATE_TYPE_DEFS
    ensures AddFrom(t, typeDef, types, k).1.Err? <==>
              forall i :: k <= i < MAX_DUPLICATE_TYPE_DEFS ==>
                TypeDefWithIndex(typeDef, i) in t && t[TypeDefWithIndex(typeDef, i)] != types
    decreases MAX_DUPLICATE_TYPE_DEFS - k
  {
    if k + 1 < MAX_DUPLICATE_TYPE_DEFS {
      AddFromFails(t, typeDef, types, k + 1);
    }
  }

  // Compiling a message again, in any table that has kept the numbered entries, returns the same key and
  // changes nothing.
  lemma {:induction false} CompileAgain(t: Table, rootType: string, prefix: string, v: Json, later: Table)
    requires Compile(t, rootType, prefix, v).1.Ok? && KeepsNumbered(Compile(t, rootType, prefix, v).0, later)
    ensures Compile(later, rootType, prefix, v) == (later, Compile(t, rootType, prefix, v).1)
    decreases v, 2, 0
  {
    SortedKeysAreTheKeys(v.fields);
    var keys := SortedKeys(v.fields);
    var (t1, types) := CompileFields(t, rootType, prefix, v, keys);
    CompileFieldsAgain(t, rootType, prefix, v, keys, later);
    AddFromAgain(t1, TypeDefForPrefix(prefix, rootType), types.value, 0, later);
  }

  lemma {:induction false} CompileFieldsAgain(t: Table, rootType: string, prefix: string, v: Json, keys: seq<string>,
                                              later: Table)
    requires v.Object? && forall i :: 0 <= i < |keys| ==> HasKey(v.fields, keys[i])
    requires CompileFields(t, rootType, prefix, v, keys).1.Ok?
    requires KeepsNumbered(CompileFields(t, rootType, prefix, v, keys).0, later)
    ensures CompileFields(later, rootType, prefix, v, keys) == (later, CompileFields(t, rootType, prefix, v, keys).1)
    decreases v, 1, |keys|
  {
    if keys != [] {
      assert HasKey(v.fields, keys[0]);
      var f := v.fields[IndexOf(v.fields, keys[0])];
      var (t1, typ) := CompileField(t, rootType, prefix, keys[0], f.value);
      CompileFieldAgain(t, rootType, prefix, keys[0], f.value, later);
      CompileFieldsAgain(t1, rootType, prefix, v, keys[1..], later);
    }
  }

  lemma {:induction false} CompileFieldAgain(t: Table, rootType: string, prefix: string, name: string, v: Json,
                                             later: Table)
    requires CompileField(t, rootType, prefix, name, v).1.Ok?
    requires KeepsNumbered(CompileField(t, rootType, prefix, name, v).0, later)
    ensures CompileField(later, rootType, prefix, name, v) == (later, CompileField(t, rootType, prefix, name, v).1)
    decreases v, 3, 0
  {
    var field := if v.Array? && v.elems != [] then v.elems[0] else v;
    if field.Object? {
      CompileAgain(t, rootType, PrefixForSubField(prefix, name), field, later);
    }
  }

  // ---------- The names of generated types ----------

  // The type of a message is its root type with an index, that of a nested object its sanitized path with one.
  lemma CompiledName(t: Table, rootType: string, prefix: string, v: Json)
    ensures Compile(t, rootType, prefix, v).1.Ok? ==>
              IsIndexed(Compile(t, rootType, prefix, v).1.value, if prefix == "_" then rootType else Sanitize(prefix))
  {
    if v.Object? {
      SortedKeysAreTheKeys(v.fields);
      var (t1, types) := CompileFields(t, rootType, prefix, v, SortedKeys(v.fields));
      if types.Ok? {
        AddFromIndexes(t1, TypeDefForPrefix(prefix, rootType), types.value, 0);
      }
    }
  }

  // A field that holds an object, or an array that starts with one, is listed under the name of the enclosing
  // path, the field's own name and an index, and as a collection exactly for an array.
  lemma NestedName(t: Table, rootType: string, prefix: string, name: string, v: Json)
    requires IsPath(prefix) && IsWord(name) && (v.Object? || (v.Array? && v.elems != [] && v.elems[0].Object?))
    ensures var r := CompileField(t, rootType, prefix, name, v).1;
            r.Ok? ==> exists k: nat :: k < MAX_DUPLICATE_TYPE_DEFS &&
                        r.value == Some(Sanitize(prefix) + Sanitize(name) + Itoa(k) + if v.Array? then "[]" else "")
  {
    var field, sub := if v.Array? then v.elems[0] else v, PrefixForSubField(prefix, name);
    CompiledName(t, rootType, sub, field);
    var (t1, key) := Compile(t, rootType, sub, field);
    if key.Ok? {
      NestedKey(prefix, name, key.value, Suffix(v.Array?));
    }
  }

  lemma NestedKey(prefix: string, name: string, key: string, suffix: string)
    requires IsPath(prefix) && IsWord(name) && IsIndexed(key, Sanitize(PrefixForSubField(prefix, name)))
    ensures exists k: nat :: k < MAX_DUPLICATE_TYPE_DEFS &&
              Sanitize(key) + suffix == Sanitize(prefix) + Sanitize(name) + Itoa(k) + suffix
  {
    var sub := PrefixForSubField(prefix, name);
    SubFieldName(prefix, name);
    var k: nat :| k < MAX_DUPLICATE_TYPE_DEFS && key == Sanitize(sub) + Itoa(k);
    SanitizeIsStable(sub, k);
  }

  // ---------- Soundness ----------

  // Every key at any depth is made of letters, digits and underscores.
  ghost predicate WordKeys(v: Json) {
    match v
    case Array(elems) => forall e :: e in elems ==> WordKeys(e)
    case Object(fields) => forall f :: f in fields ==> IsWord(f.name) && WordKeys(f.value)
    case _ => true
  }

  ghost predicate IsAtomic(ref: string) {
    ref in {"bool", "int64", "string", "uint256"}
  }

  ghost predicate Names(t: Table, ref: string) {
    IsAtomic(ref) || ref in t
  }

  // A reference, possibly to an array, that the table can resolve.
  ghost predicate Resolves(t: Table, ref: string) {
    Names(t, ref) || (|ref| > 2 && ref[|ref|-2..] == "[]" && Names(t, ref[..|ref|-2]))
  }

  ghost predicate Closed(t: Table) {
    forall k :: k in t ==> forall i :: 0 <= i < |t[k]| ==> Resolves(t, t[k][i].typ)
  }

  ghost predicate Matches(t: Table, types: seq<TypeField>, shapes: seq<ShapeField>) {
    && |types| == |shapes|
    && forall i :: 0 <= i < |types| ==> types[i].name == shapes[i].name && Describes(t, types[i].typ, shapes[i].shape)
                                        && Resolves(t, types[i].typ)
  }

  lemma MatchesIsStable(t: Table, t': Table, types: seq<TypeField>, shapes: seq<ShapeField>)
    requires Matches(t, types, shapes) && Extends(t, t')
    ensures Matches(t', types, shapes)
  {
    forall i | 0 <= i < |types| ensures Describes(t', types[i].typ, shapes[i].shape) {
      DescribesIsStable(t, t', types[i].typ, shapes[i].shape);
    }
  }

  lemma ClosedExtension(t: Table, name: string, types: seq<TypeField>, shapes: seq<ShapeField>)
    requires Closed(t) && Matches(t, types, shapes) && Extends(t, t[name := types])
    ensures Closed(t[name := types])
  {
    var t': Table := t[name := types];
    forall k, i | k in t' && 0 <= i < |t'[k]| ensures Resolves(t', t'[k][i].typ) {
      if k != name {
        assert k in t && Resolves(t, t[k][i].typ);
      }
    }
  }

  // What compiling an object achieves.
  ghost predicate Compiled(t: Table, t': Table, prefix: string, v: Json, r: Result<string, Error>) {
    && (Closed(t) ==> Closed(t'))
    && (r.Ok? ==>
          && v.Object? && ShapeOf(v).Some? && Describes(t', r.value, ShapeOf(v).value)
          && (prefix != "_" ==> Sanitize(r.value) == r.value))
  }

  // What compiling one field achieves.
  ghost predicate CompiledField(t: Table, t': Table, v: Json, r: Result<Option<string>, Error>) {
    && (Closed(t) ==> Closed(t'))
    && (r.Ok? ==>
          && (r.value.Some? <==> ShapeOf(v).Some?)
          && (r.value.Some? ==> Describes(t', r.value.value, ShapeOf(v).value) && Resolves(t', r.value.value)))
  }

  lemma InsertionIsSound(t: Table, rootType: string, prefix: string, v: Json, types: seq<TypeField>)
    requires IsPath(prefix) && |rootType| >= 4 && rootType[..4] == "Type" && v.Object?
    requires ShapeOf(v).Some? && ShapeOf(v).value.SObject? && Matches(t, types, ShapeOf(v).value.fields)
    ensures var (t', r) := AddTypes(t, TypeDefForPrefix(prefix, rootType), types);
            Compiled(t, t', prefix, v, r)
  {
    var typeDef := TypeDefForPrefix(prefix, rootType);
    var (t', r) := AddTypes(t, typeDef, types);
    AddFromExtends(t, typeDef, types, 0);
    if r.Ok? {
      var i: nat :| r.value == TypeDefWithIndex(typeDef, i);
      MatchesIsStable(t, t', types, ShapeOf(v).value.fields);
      if prefix == "_" {
        assert r.value[..4] == rootType[..4];
      } else {
        SanitizeIsStable(prefix, i);
      }
      if Closed(t) {
        ClosedExtension(t, r.value, types, ShapeOf(v).value.fields);
      }
    }
  }

  lemma {:induction false} CompileIsSound(t: Table, rootType: string, prefix: string, v: Json)
    requires IsPath(prefix) && |rootType| >= 4 && rootType[..4] == "Type" && WordKeys(v)
    ensures var (t', r) := Compile(t, rootType, prefix, v); Compiled(t, t', prefix, v, r)
    decreases v, 2, 0
  {
    if v.Object? {
      var keys := SortedKeys(v.fields);
      SortedKeysAreTheKeys(v.fields);
      CompileFieldsIsSound(t, rootType, prefix, v, keys);
      var (t1, types) := CompileFields(t, rootType, prefix, v, keys);
      if types.Ok? {
        InsertionIsSound(t1, rootType, prefix, v, types.value);
      }
    }
  }

  lemma MatchesCons(t: Table, name: string, typ: string, shape: Shape, types: seq<TypeField>,
                    shapes: seq<ShapeField>)
    requires Matches(t, types, shapes) && Describes(t, typ, shape) && Resolves(t, typ)
    ensures Matches(t, [TypeField(name, typ)] + types, [ShapeField(name, shape)] + shapes)
  {
    var types', shapes' := [TypeField(name, typ)] + types, [ShapeField(name, shape)] + shapes;
    forall i | 0 <= i < |types'|
      ensures types'[i].name == shapes'[i].name
      ensures Describes(t, types'[i].typ, shapes'[i].shape) && Resolves(t, types'[i].typ)
    {
      if i > 0 {
        assert types'[i] == types[i-1] && shapes'[i] == shapes[i-1];
      }
    }
  }

  lemma {:induction false} CompileFieldsIsSound(t: Table, rootType: string, prefix: string, v: Json, keys: seq<string>)
    requires IsPath(prefix) && |rootType| >= 4 && rootType[..4] == "Type" && WordKeys(v)
    requires v.Object? && forall i :: 0 <= i < |keys| ==> HasKey(v.fields, keys[i])
    ensures var (t', r) := CompileFields(t, rootType, prefix, v, keys);
            && (Closed(t) ==> Closed(t'))
            && (r.Ok? ==> Matches(t', r.value, ShapeFields(v, keys)))
    decreases v, 1, |keys|
  {
    if keys != [] {
      assert HasKey(v.fields, keys[0]);
      var f := v.fields[IndexOf(v.fields, keys[0])];
      assert f in v.fields;
      CompileFieldIsSound(t, rootType, prefix, keys[0], f.value);
      var (t1, typ) := CompileField(t, rootType, prefix, keys[0], f.value);
      if typ.Ok? {
        CompileFieldsIsSound(t1, rootType, prefix, v, keys[1..]);
        var (t2, rest) := CompileFields(t1, rootType, prefix, v, keys[1..]);
        if rest.Ok? && typ.value.Some? {
          DescribesIsStable(t1, t2, typ.value.value, ShapeOf(f.value).value);
          MatchesCons(t2, keys[0], typ.value.value, ShapeOf(f.value).value, rest.value, ShapeFields(v, keys[1..]));
        }
      }
    }
  }

  // Marking a reference as a collection turns its shape into an array of it.
  lemma CollectionOf(t: Table, ref: string, shape: Shape)
    requires Describes(t, ref, shape) && Names(t, ref) && ref != ""
    ensures Describes(t, ref + "[]", SArray(shape)) && Resolves(t, ref + "[]")
    ensures ref + "" == ref
  {
    assert (ref + "[]")[..|ref + "[]"|-2] == ref;
    assert (ref + "[]")[|ref + "[]"|-2..] == "[]";
  }

  lemma CompileLeafIsSound(t: Table, rootType: string, prefix: string, name: string, v: Json)
    requires !v.Object? && (v.Array? && v.elems != [] ==> !v.elems[0].Object?)
    ensures var (t', r) := CompileField(t, rootType, prefix, name, v); CompiledField(t, t', v, r)
  {
    if v == Array([]) {
      CollectionOf(t, "string", SString);
      assert "string" + "[]" == "string[]";
    } else {
      var field := if v.Array? then v.elems[0] else v;
      if EthTypeForJson(field).Some? {
        CollectionOf(t, EthTypeForJson(field).value, ShapeOf(field).value);
      }
    }
  }

  // A field that is an object, or an array whose first element is one, is as good as that object.
  lemma CompiledObject(t: Table, t1: Table, prefix: string, v: Json, field: Json, key: Result<string, Error>)
    requires field.Object? && (v == field || (v.Array? && v.elems != [] && field == v.elems[0]))
    requires prefix != "_" && Compiled(t, t1, prefix, field, key)
    ensures CompiledField(t, t1, v, if key.Err? then Err(key.error)
                                    else Ok(Some(Sanitize(key.value) + Suffix(v.Array?))))
  {
    if key.Ok? {
      CollectionOf(t1, key.value, ShapeOf(field).value);
    }
  }

  lemma {:induction false} CompileFieldIsSound(t: Table, rootType: string, prefix: string, name: string, v: Json)
    requires IsPath(prefix) && |rootType| >= 4 && rootType[..4] == "Type" && WordKeys(v) && IsWord(name)
    ensures var (t', r) := CompileField(t, rootType, prefix, name, v); CompiledField(t, t', v, r)
    decreases v, 3, 0
  {
    var field := if v.Array? && v.elems != [] then v.elems[0] else v;
    if field.Object? {
      assert v.Array? ==> v.elems[0] in v.elems;
      var sub := PrefixForSubField(prefix, name);
      CompileIsSound(t, rootType, sub, field);
      var (t1, key) := Compile(t, rootType, sub, field);
      CompiledObject(t, t1, sub, v, field, key);
    } else {
      CompileLeafIsSound(t, rootType, prefix, name, v);
    }
  }
}
