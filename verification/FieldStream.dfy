/** Reading a byte string record by record, for any record reader. */
module FieldStream {
  import opened Common
  import opened Varint

  // Reads one record from the front of s, which stands at index at of the input: the new state and the
  // record's length.
  type Reader<!M> = (seq<byte>, nat, M) -> Result<(M, nat), Error>

  ghost predicate Progress<M(!new)>(f: Reader<M>) {
    forall s, at: nat, m :: f(s, at, m).Ok? ==> 0 < f(s, at, m).value.1
  }

  // A record is read the same whatever follows it and wherever it stands.
  ghost predicate Local<M(!new)>(f: Reader<M>) {
    forall s, t, at: nat, at': nat, m :: at' + |s + t| < TWO63 && f(s, at, m).Ok? && f(s, at, m).value.1 <= |s| ==>
      f(s + t, at', m) == f(s, at, m)
  }

  // Cutting off what follows a record does not change how it is read.
  ghost predicate Tight<M(!new)>(f: Reader<M>) {
    forall s, t, at: nat, m :: f(s + t, at, m).Ok? && f(s + t, at, m).value.1 <= |s| ==>
      f(s, at, m) == f(s + t, at, m)
  }

  // What a reader does once it has the tag at the front of s: its value, its length, and the rest.
  type Body<!M> = (nat, nat, seq<byte>, nat, M) -> Result<(M, nat), Error>

  ghost predicate BodyLocal<M(!new)>(g: Body<M>) {
    forall wire: nat, j: nat, s, t, at: nat, at': nat, m ::
      0 < j <= |s| && at' + |s + t| < TWO63
      && g(wire, j, s, at, m).Ok? && g(wire, j, s, at, m).value.1 <= |s| ==>
      g(wire, j, s + t, at', m) == g(wire, j, s, at, m)
  }

  function ReadTagged<M>(g: Body<M>, s: seq<byte>, at: nat, m: M): Result<(M, nat), Error> {
    match ParseVarint(s)
    case Err(e) => Err(e)
    case Ok((wire, j)) => g(wire, j, s, at, m)
  }

  lemma ReadTaggedIs<M>(g: Body<M>, s: seq<byte>, at: nat, m: M, wire: nat, j: nat)
    requires ParseVarint(s) == Ok((wire, j))
    ensures ReadTagged(g, s, at, m) == g(wire, j, s, at, m)
  {
  }

  lemma ReadTaggedLocal<M(!new)>(g: Body<M>, s: seq<byte>, t: seq<byte>, at: nat, at': nat, m: M)
    requires BodyLocal(g) && at' + |s + t| < TWO63
    requires ReadTagged(g, s, at, m).Ok? && ReadTagged(g, s, at, m).value.1 <= |s|
    ensures ReadTagged(g, s + t, at', m) == ReadTagged(g, s, at, m)
  {
    ParseVarintLocal(s, t);
    var (wire, j) := ParseVarint(s).value;
    assert g(wire, j, s + t, at', m) == g(wire, j, s, at, m);
  }

  // Reads what stands behind a tag of the given wire type: the new state and the length read.
  type ValueReader<!M> = (nat, seq<byte>, nat, M) -> Result<(M, nat), Error>

  ghost predicate ValueLocal<M(!new)>(h: ValueReader<M>) {
    forall w: nat, s, t, at: nat, at': nat, m ::
      at' + |s + t| < TWO63 && h(w, s, at, m).Ok? && h(w, s, at, m).value.1 <= |s| ==>
      h(w, s + t, at', m) == h(w, s, at, m)
  }

  function ReadValue<M>(h: ValueReader<M>, wire: nat, j: nat, s: seq<byte>, at: nat, m: M): Result<(M, nat), Error> {
    if j > |s| then Err(UnexpectedEOF)
    else
      match h(wire % 8, s[j..], at + j, m)
      case Err(e) => Err(e)
      case Ok((m', n)) => Ok((m', j + n))
  }

  lemma ReadValueLocal<M(!new)>(h: ValueReader<M>, wire: nat, j: nat, s: seq<byte>, t: seq<byte>,
                                at: nat, at': nat, m: M)
    requires ValueLocal(h) && j <= |s| && at' + |s + t| < TWO63
    requires ReadValue(h, wire, j, s, at, m).Ok? && ReadValue(h, wire, j, s, at, m).value.1 <= |s|
    ensures ReadValue(h, wire, j, s + t, at', m) == ReadValue(h, wire, j, s, at, m)
  {
    assert (s + t)[j..] == s[j..] + t;
    assert h(wire % 8, s[j..] + t, at' + j, m) == h(wire % 8, s[j..], at + j, m);
  }

  lemma ReadValueAt<M>(h: ValueReader<M>, wire: nat, d: seq<byte>, i: nat, j: nat, m: M)
    requires i <= j <= |d|
    ensures ReadValue(h, wire, j - i, d[i..], i, m) ==
            match h(wire % 8, d[j..], j, m) case Err(e) => Err(e) case Ok((m', n)) => Ok((m', j - i + n))
  {
    assert d[i..][j - i..] == d[j..];
  }

  lemma ReadBehindTag<M>(g: Body<M>, tag: seq<byte>, rest: seq<byte>, at: nat, m: M)
    requires ParseVarint(tag).Ok? && ParseVarint(tag).value.1 == |tag|
    ensures ReadTagged(g, tag + rest, at, m) == g(ParseVarint(tag).value.0, |tag|, tag + rest, at, m)
  {
    ParseVarintLocal(tag, rest);
  }

  // Reads records until the input is used up.
  function ReadAll<M(!new)>(f: Reader<M>, s: seq<byte>, at: nat, m: M): Result<M, Error>
    requires Progress(f)
    decreases |s|
  {
    if s == [] then Ok(m)
    else
      match f(s, at, m)
      case Err(e) => Err(e)
      case Ok((m', n)) => if n > |s| then Err(UnexpectedEOF) else ReadAll(f, s[n..], at + n, m')
  }

  // Reads records until none is open any more: the length read, which may overrun s.
  function ReadBalanced(f: Reader<nat>, s: seq<byte>, at: nat, depth: nat): (r: Result<nat, Error>)
    requires Progress(f)
    ensures r.Ok? ==> 0 < r.value
    decreases |s|
  {
    if s == [] then Err(UnexpectedEOF)
    else
      match f(s, at, depth)
      case Err(e) => Err(e)
      case Ok((depth', n)) =>
        if depth' == 0 then Ok(n)
        else if n >= |s| then Err(UnexpectedEOF)
        else
          match ReadBalanced(f, s[n..], at + n, depth')
          case Err(e) => Err(e)
          case Ok(k) => Ok(n + k)
  }

  lemma {:induction false} ReadBalancedLocal(f: Reader<nat>, s: seq<byte>, t: seq<byte>, at: nat, at': nat,
                                             depth: nat, n: nat)
    requires Progress(f) && Local(f) && at' + |s + t| < TWO63
    requires ReadBalanced(f, s, at, depth) == Ok(n) && n <= |s|
    ensures ReadBalanced(f, s + t, at', depth) == Ok(n)
    decreases |s|
  {
    var (depth', k) := f(s, at, depth).value;
    assert f(s + t, at', depth) == f(s, at, depth);
    if depth' != 0 {
      assert (s + t)[k..] == s[k..] + t;
      ReadBalancedLocal(f, s[k..], t, at + k, at' + k, depth', n - k);
    }
  }

  lemma {:induction false} ReadBalancedTight(f: Reader<nat>, s: seq<byte>, t: seq<byte>, at: nat, depth: nat, n: nat)
    requires Progress(f) && Tight(f) && ReadBalanced(f, s + t, at, depth) == Ok(n) && n <= |s|
    ensures ReadBalanced(f, s, at, depth) == Ok(n)
    decreases |s|
  {
    var (depth', k) := f(s + t, at, depth).value;
    if depth' != 0 {
      assert (s + t)[k..] == s[k..] + t;
      ReadBalancedTight(f, s[k..], t, at + k, depth', n - k);
    }
    assert f(s, at, depth) == f(s + t, at, depth);
  }

  lemma ReadFirst<M(!new)>(f: Reader<M>, a: seq<byte>, b: seq<byte>, at: nat, at': nat, m: M,
                           m': M, n: nat)
    requires Progress(f) && a != [] && f(a, at, m) == f(a + b, at', m) == Ok((m', n)) && n <= |a|
    ensures ReadAll(f, a, at, m) == ReadAll(f, a[n..], at + n, m')
    ensures ReadAll(f, a + b, at', m) == ReadAll(f, a[n..] + b, at' + n, m')
  {
    assert (a + b)[n..] == a[n..] + b;
  }

  // Reading a concatenation is reading its parts in turn.
  lemma {:induction false} ReadConcat<M(!new)>(f: Reader<M>, a: seq<byte>, b: seq<byte>, at: nat, at': nat, m: M, m1: M)
    requires Progress(f) && Local(f) && at' + |a + b| < TWO63
    requires ReadAll(f, a, at, m) == Ok(m1)
    ensures ReadAll(f, a + b, at', m) == ReadAll(f, b, at' + |a|, m1)
    decreases |a|
  {
    if a == [] {
      assert a + b == b;
    } else {
      var (m', n) := f(a, at, m).value;
      ReadFirst(f, a, b, at, at', m, m', n);
      ReadConcat(f, a[n..], b, at + n, at' + n, m', m1);
    }
  }

  lemma ReadAnywhere<M(!new)>(f: Reader<M>, s: seq<byte>, at: nat, at': nat, m: M, m1: M)
    requires Progress(f) && Local(f) && at' + |s| < TWO63 && ReadAll(f, s, at, m) == Ok(m1)
    ensures ReadAll(f, s, at', m) == Ok(m1)
  {
    assert s + [] == s;
    ReadConcat(f, s, [], at, at', m, m1);
  }

  lemma ReadOne<M(!new)>(f: Reader<M>, s: seq<byte>, at: nat, m: M, m': M)
    requires Progress(f) && s != [] && f(s, at, m) == Ok((m', |s|))
    ensures ReadAll(f, s, at, m) == Ok(m')
  {
    assert s[|s|..] == [];
  }

  // The state that reading leaves, failing or not, where fail tells what a failing record makes of it.
  function ReadOut<M(!new)>(f: Reader<M>, fail: (seq<byte>, M) -> M, s: seq<byte>, at: nat, m: M): M
    requires Progress(f)
    decreases |s|
  {
    if s == [] then m
    else
      match f(s, at, m)
      case Err(_) => fail(s, m)
      case Ok((m', n)) => if n > |s| then fail(s, m) else ReadOut(f, fail, s[n..], at + n, m')
  }

  lemma {:induction false} ReadOutAll<M(!new)>(f: Reader<M>, fail: (seq<byte>, M) -> M, s: seq<byte>, at: nat, m: M)
    requires Progress(f) && ReadAll(f, s, at, m).Ok?
    ensures ReadOut(f, fail, s, at, m) == ReadAll(f, s, at, m).value
    decreases |s|
  {
    if s != [] {
      var (m', n) := f(s, at, m).value;
      ReadOutAll(f, fail, s[n..], at + n, m');
    }
  }

  // The first k bytes read as m1, and the record behind them fails or overruns the input.
  ghost predicate FailsAt<M(!new)>(f: Reader<M>, s: seq<byte>, at: nat, m: M, k: nat, m1: M)
    requires Progress(f)
  {
    && k < |s| && ReadAll(f, s[..k], at, m) == Ok(m1)
    && (f(s[k..], at + k, m1).Err? || f(s[k..], at + k, m1).value.1 > |s| - k)
  }

  // A failing input has a front that reads, followed by the record that fails; the latter has the last word on
  // the state.
  lemma {:induction false} ReadUntilError<M(!new)>(f: Reader<M>, fail: (seq<byte>, M) -> M, s: seq<byte>, at: nat, m: M)
    returns (k: nat, m1: M)
    requires Progress(f) && Tight(f) && ReadAll(f, s, at, m).Err?
    ensures FailsAt(f, s, at, m, k, m1) && ReadOut(f, fail, s, at, m) == fail(s[k..], m1)
    decreases |s|
  {
    var r := f(s, at, m);
    if r.Err? || r.value.1 > |s| {
      k, m1 := 0, m;
      assert s[0..] == s;
    } else {
      var (m', n) := r.value;
      var i;
      i, m1 := ReadUntilError(f, fail, s[n..], at + n, m');
      k := n + i;
      assert s == s[..k] + s[k..] && f(s[..k], at, m) == r;
      assert s[..k][n..] == s[n..][..i] && s[n..][i..] == s[k..];
    }
  }

  // Parts that are read on their own are read one after another, whatever the starting index.
  lemma ReadInTurn<M(!new)>(f: Reader<M>, a: seq<byte>, b: seq<byte>, m: M, m1: M, m2: M)
    requires Progress(f) && Local(f) && |a + b| < TWO63
    requires ReadAll(f, a, 0, m) == Ok(m1) && ReadAll(f, b, 0, m1) == Ok(m2)
    ensures ReadAll(f, a + b, 0, m) == Ok(m2)
  {
    ReadConcat(f, a, b, 0, 0, m, m1);
    ReadAnywhere(f, b, 0, |a|, m1, m2);
  }

  lemma ReadAtBoth<M(!new)>(f: Reader<M>, s: seq<byte>, at: nat, at': nat, m: M)
    requires Progress(f) && Local(f) && at + |s| < TWO63 && at' + |s| < TWO63
    ensures ReadAll(f, s, at, m).Ok? <==> ReadAll(f, s, at', m).Ok?
    ensures ReadAll(f, s, at, m).Ok? ==> ReadAll(f, s, at', m) == ReadAll(f, s, at, m)
  {
    if ReadAll(f, s, at, m).Ok? {
      ReadAnywhere(f, s, at, at', m, ReadAll(f, s, at, m).value);
    } else if ReadAll(f, s, at', m).Ok? {
      ReadAnywhere(f, s, at', at, m, ReadAll(f, s, at', m).value);
    }
  }

  // Two fronts that read alike can stand for one another.
  lemma ReadSameTail<M(!new)>(f: Reader<M>, a: seq<byte>, c: seq<byte>, b: seq<byte>, m: M, m1: M)
    requires Progress(f) && Local(f) && |a + b| < TWO63 && |c + b| < TWO63
    requires ReadAll(f, a, 0, m) == Ok(m1) && ReadAll(f, c, 0, m) == Ok(m1)
    ensures ReadAll(f, c + b, 0, m).Ok? <==> ReadAll(f, a + b, 0, m).Ok?
    ensures ReadAll(f, a + b, 0, m).Ok? ==> ReadAll(f, c + b, 0, m) == ReadAll(f, a + b, 0, m)
  {
    ReadConcat(f, a, b, 0, 0, m, m1);
    ReadConcat(f, c, b, 0, 0, m, m1);
    ReadAtBoth(f, b, |a|, |c|, m1);
  }

  function Shift(n: nat, r: Result<nat, Error>): Result<nat, Error> {
    match r
    case Err(e) => Err(e)
    case Ok(k) => Ok(n + k)
  }

  // The balanced read of d after i bytes, with depth groups open.
  ghost function BalancedFrom(f: Reader<nat>, d: seq<byte>, i: nat, depth: nat): Result<nat, Error>
    requires Progress(f)
  {
    if i > |d| then Err(UnexpectedEOF) else Shift(i, ReadBalanced(f, d[i..], i, depth))
  }

  lemma BalancedFromStart(f: Reader<nat>, d: seq<byte>)
    requires Progress(f)
    ensures BalancedFrom(f, d, 0, 0) == ReadBalanced(f, d, 0, 0)
  {
    assert d[0..] == d;
  }

  lemma BalancedAtEnd(f: Reader<nat>, d: seq<byte>, i: nat, depth: nat)
    requires Progress(f) && i >= |d|
    ensures BalancedFrom(f, d, i, depth) == Err(UnexpectedEOF)
  {
  }

  lemma BalancedNext(f: Reader<nat>, d: seq<byte>, i: nat, depth: nat)
    requires Progress(f) && i < |d|
    ensures BalancedFrom(f, d, i, depth) ==
            match f(d[i..], i, depth)
            case Err(e) => Err(e)
            case Ok((open, n)) => if open == 0 then Ok(i + n) else BalancedFrom(f, d, i + n, open)
  {
    if f(d[i..], i, depth).Ok? {
      var n := f(d[i..], i, depth).value.1;
      if i + n <= |d| {
        assert d[i..][n..] == d[i + n..];
      }
    }
  }

  // Reading x takes the number of open groups from d to d', whatever follows.
  ghost predicate Moves(f: Reader<nat>, x: seq<byte>, d: nat, d': nat)
    requires Progress(f)
  {
    forall t, at: nat :: at + |x + t| < TWO63 ==>
      ReadBalanced(f, x + t, at, d) == Shift(|x|, ReadBalanced(f, t, at + |x|, d'))
  }

  ghost predicate StepsTo(f: Reader<nat>, x: seq<byte>, d: nat, d': nat) {
    forall t, at: nat :: at + |x + t| < TWO63 ==> f(x + t, at, d) == Ok((d', |x|))
  }

  lemma OneStepMoves(f: Reader<nat>, x: seq<byte>, d: nat, d': nat)
    requires Progress(f) && x != [] && d' > 0 && StepsTo(f, x, d, d')
    ensures Moves(f, x, d, d')
  {
    forall t, at: nat | at + |x + t| < TWO63
      ensures ReadBalanced(f, x + t, at, d) == Shift(|x|, ReadBalanced(f, t, at + |x|, d'))
    {
      assert f(x + t, at, d) == Ok((d', |x|));
      assert (x + t)[|x|..] == t;
    }
  }

  lemma MovesInTurn(f: Reader<nat>, x: seq<byte>, y: seq<byte>, d: nat, d1: nat, d2: nat)
    requires Progress(f) && Moves(f, x, d, d1) && Moves(f, y, d1, d2)
    ensures Moves(f, x + y, d, d2)
  {
    forall t, at: nat | at + |x + y + t| < TWO63
      ensures ReadBalanced(f, x + y + t, at, d) == Shift(|x + y|, ReadBalanced(f, t, at + |x + y|, d2))
    {
      assert x + y + t == x + (y + t);
      assert ReadBalanced(f, x + (y + t), at, d) == Shift(|x|, ReadBalanced(f, y + t, at + |x|, d1));
      assert ReadBalanced(f, y + t, at + |x|, d1) == Shift(|y|, ReadBalanced(f, t, at + |x| + |y|, d2));
    }
  }

  // ---------- Nested records ----------

  // A record, or a group of records between an opening and a closing one.
  datatype Tree = Leaf(bytes: seq<byte>) | Group(open: seq<byte>, parts: seq<Tree>, close: seq<byte>)

  // Which byte strings are complete records, opening records and closing records.
  datatype Grammar = Grammar(leaf: seq<byte> -> bool, open: seq<byte> -> bool, close: seq<byte> -> bool)

  ghost predicate WellFormed(u: Tree, g: Grammar) {
    match u
    case Leaf(x) => x != [] && g.leaf(x)
    case Group(open, parts, close) =>
      && open != [] && g.open(open) && close != [] && g.close(close)
      && forall p :: p in parts ==> WellFormed(p, g)
  }

  function Print(u: Tree): seq<byte> {
    match u
    case Leaf(x) => x
    case Group(open, parts, close) => open + PrintAll(parts) + close
  }

  function PrintAll(us: seq<Tree>): seq<byte> {
    if us == [] then [] else Print(us[0]) + PrintAll(us[1..])
  }

  // A reader that passes over a record in one step and counts the groups it enters and leaves.
  ghost predicate Reads(f: Reader<nat>, g: Grammar) {
    && (forall x, d: nat :: g.leaf(x) ==> StepsTo(f, x, d, d))
    && (forall x, d: nat, d': nat :: g.open(x) && d' == d + 1 ==> StepsTo(f, x, d, d'))
    && (forall x, d: nat, d': nat :: g.close(x) && d == d' + 1 ==> StepsTo(f, x, d, d'))
  }

  // Inside a group a printed tree leaves the group's depth as it was.
  lemma {:induction false} TreeMoves(f: Reader<nat>, g: Grammar, u: Tree, d: nat)
    requires Progress(f) && Reads(f, g) && WellFormed(u, g) && d > 0
    ensures Moves(f, Print(u), d, d)
    decreases u, 1
  {
    match u
    case Leaf(x) =>
      OneStepMoves(f, x, d, d);
    case Group(open, parts, close) =>
      OpenGroupMoves(f, g, u, d);
      OneStepMoves(f, close, d + 1, d);
      MovesInTurn(f, open + PrintAll(parts), close, d, d + 1, d);
  }

  // A group's opening record and contents lead one level deeper.
  lemma {:induction false} OpenGroupMoves(f: Reader<nat>, g: Grammar, u: Tree, d: nat)
    requires Progress(f) && Reads(f, g) && WellFormed(u, g) && u.Group?
    ensures Moves(f, u.open + PrintAll(u.parts), d, d + 1)
    decreases u, 0
  {
    OneStepMoves(f, u.open, d, d + 1);
    TreesMove(f, g, u.parts, d + 1);
    MovesInTurn(f, u.open, PrintAll(u.parts), d, d + 1, d + 1);
  }

  lemma {:induction false} TreesMove(f: Reader<nat>, g: Grammar, us: seq<Tree>, d: nat)
    requires Progress(f) && Reads(f, g) && (forall u :: u in us ==> WellFormed(u, g)) && d > 0
    ensures Moves(f, PrintAll(us), d, d)
    decreases us, 0
  {
    if us == [] {
      forall t, at: nat ensures ReadBalanced(f, [] + t, at, d) == Shift(0, ReadBalanced(f, t, at, d)) {
        assert [] + t == t;
      }
    } else {
      TreeMoves(f, g, us[0], d);
      TreesMove(f, g, us[1..], d);
      MovesInTurn(f, Print(us[0]), PrintAll(us[1..]), d, d, d);
    }
  }

  // From depth zero a balanced read ends exactly behind the tree.
  lemma ReadTree(f: Reader<nat>, g: Grammar, u: Tree, t: seq<byte>)
    requires Progress(f) && Reads(f, g) && WellFormed(u, g) && |Print(u) + t| < TWO63
    ensures ReadBalanced(f, Print(u) + t, 0, 0) == Ok(|Print(u)|)
  {
    match u
    case Leaf(x) =>
      assert StepsTo(f, x, 0, 0) && f(x + t, 0, 0) == Ok((0, |x|));
    case Group(open, parts, close) =>
      var front := open + PrintAll(parts);
      OpenGroupMoves(f, g, u, 0);
      assert Print(u) + t == front + (close + t);
      assert StepsTo(f, close, 1, 0) && f(close + t, |front|, 1) == Ok((0, |close|));
  }
}
