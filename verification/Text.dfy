/** Strings as the EIP-712 schema builder uses them: decimal indexes, splitting, title case, sorting. */
module Text {
  import opened Lexicographic

  predicate IsDigit(c: char) {
    '0' <= c <= '9'
  }

  predicate IsLetter(c: char) {
    'A' <= c <= 'Z' || 'a' <= c <= 'z'
  }

  predicate IsAlnum(c: char) {
    IsDigit(c) || IsLetter(c)
  }

  function Upper(c: char): char {
    if 'a' <= c <= 'z' then c - 'a' + 'A' else c
  }

  ghost predicate AllAlnum(s: string) {
    forall c :: c in s ==> IsAlnum(c)
  }

  // fmt's %d of a natural number.
  function Itoa(n: nat): (s: string)
    ensures s != "" && forall i :: 0 <= i < |s| ==> IsDigit(s[i])
  {
    if n < 10 then ['0' + n as char] else Itoa(n / 10) + ['0' + (n % 10) as char]
  }

  // The number that a string of digits stands for.
  function Value(s: string): nat
    requires forall i :: 0 <= i < |s| ==> IsDigit(s[i])
  {
    if s == "" then 0
    else
      var last := s[|s|-1];
      assert IsDigit(last);
      10 * Value(s[..|s|-1]) + (last - '0') as nat
  }

  // Itoa(n) is the decimal numeral of n, without leading zeros.
  lemma {:induction false} ItoaIsNumeral(n: nat)
    ensures Value(Itoa(n)) == n
    ensures Itoa(n)[0] == '0' <==> n == 0
  {
    if n < 10 {
      assert Itoa(n)[..0] == "";
    } else {
      ItoaIsNumeral(n / 10);
      assert Itoa(n)[..|Itoa(n)|-1] == Itoa(n / 10);
    }
  }

  lemma ItoaIsInjective(m: nat, n: nat)
    requires Itoa(m) == Itoa(n)
    ensures m == n
  {
    ItoaIsNumeral(m);
    ItoaIsNumeral(n);
  }

  function Split(s: string, sep: char): (parts: seq<string>)
    ensures |parts| >= 1
  {
    if s == "" then [""]
    else SplitStep(s[0], sep, Split(s[1..], sep))
  }

  // A separator starts a new part; another character joins the first one.
  function SplitStep(c: char, sep: char, rest: seq<string>): (parts: seq<string>)
    requires |rest| >= 1
    ensures |parts| >= 1
  {
    if c == sep then [""] + rest else [[c] + rest[0]] + rest[1..]
  }

  // Every part mapped by f, one after the other.
  function ConcatMap(f: string -> string, parts: seq<string>): string {
    if parts == [] then "" else f(parts[0]) + ConcatMap(f, parts[1..])
  }

  // Upper-cases the first letter and leaves the rest alone.
  function Title(s: string): string {
    if s == "" then "" else if IsLetter(s[0]) then [Upper(s[0])] + s[1..] else [s[0]] + Title(s[1..])
  }

  lemma {:induction false} SplitWithoutSeparator(s: string, sep: char)
    requires sep !in s
    ensures Split(s, sep) == [s]
  {
    if s != "" {
      SplitWithoutSeparator(s[1..], sep);
      assert [s[0]] + s[1..] == s;
    }
  }

  lemma StepBeforeParts(c: char, sep: char, a: seq<string>, b: seq<string>)
    requires |a| >= 1
    ensures SplitStep(c, sep, a + b) == SplitStep(c, sep, a) + b
  {
    assert (a + b)[1..] == a[1..] + b;
  }

  // Text with a separator splits at it: the parts of what is before, then the parts of what is behind.
  lemma {:induction false} SplitAtSeparator(s: string, sep: char, t: string)
    ensures Split(s + [sep] + t, sep) == Split(s, sep) + Split(t, sep)
  {
    var whole := s + [sep] + t;
    if s == "" {
      assert whole[1..] == t;
    } else {
      SplitAtSeparator(s[1..], sep, t);
      assert whole[1..] == s[1..] + [sep] + t && whole[0] == s[0];
      StepBeforeParts(s[0], sep, Split(s[1..], sep), Split(t, sep));
    }
  }

  // Splitting removes the separators and nothing else.
  lemma {:induction false} SplitCharacters(s: string, sep: char)
    ensures forall p, c :: p in Split(s, sep) && c in p ==> c in s && c != sep
  {
    if s != "" {
      SplitCharacters(s[1..], sep);
      var rest := Split(s[1..], sep);
      forall p, c | p in Split(s, sep) && c in p ensures c in s && c != sep {
        if s[0] == sep {
          assert p in rest;
        } else if p != [s[0]] + rest[0] {
          assert p in rest[1..] && p in rest;
        } else if c != s[0] {
          assert c in rest[0] && rest[0] in rest;
        }
      }
    }
  }

  // Only the first letter changes, to upper case.
  lemma {:induction false} TitleChangesFirstLetter(s: string, k: nat)
    requires k < |s| && IsLetter(s[k]) && forall i :: 0 <= i < k ==> !IsLetter(s[i])
    ensures Title(s) == s[k := Upper(s[k])]
  {
    if k > 0 {
      TitleChangesFirstLetter(s[1..], k - 1);
      UpdateInTail(s, k, Upper(s[k]));
    } else {
      assert [Upper(s[0])] + s[1..] == s[0 := Upper(s[0])];
    }
  }

  lemma UpdateInTail(s: string, k: nat, c: char)
    requires 0 < k < |s|
    ensures [s[0]] + s[1..][k-1 := c] == s[k := c]
  {
  }

  lemma {:induction false} ConcatMapOfParts(f: string -> string, a: seq<string>, b: seq<string>)
    ensures ConcatMap(f, a + b) == ConcatMap(f, a) + ConcatMap(f, b)
  {
    if a == [] {
      assert a + b == b;
    } else {
      ConcatMapOfParts(f, a[1..], b);
      assert (a + b)[1..] == a[1..] + b;
      Associate(f(a[0]), ConcatMap(f, a[1..]), ConcatMap(f, b));
    }
  }

  lemma ConcatMapOfOne(f: string -> string, part: string)
    ensures ConcatMap(f, [part]) == f(part)
  {
    assert [part][1..] == [];
    assert ConcatMap(f, [part]) == f(part) + ConcatMap(f, []);
  }

  // What is left to append after the i-th part.
  lemma NextPart(f: string -> string, buf: string, parts: seq<string>, i: nat)
    requires i < |parts|
    ensures buf + ConcatMap(f, parts[i..]) == (buf + f(parts[i])) + ConcatMap(f, parts[i+1..])
  {
    assert parts[i..][0] == parts[i] && parts[i..][1..] == parts[i+1..];
    Associate(buf, f(parts[i]), ConcatMap(f, parts[i+1..]));
  }

  lemma Associate(a: string, b: string, c: string)
    ensures a + (b + c) == (a + b) + c
  {
  }

  lemma {:induction false} TitleKeepsAlnum(s: string)
    requires AllAlnum(s)
    ensures AllAlnum(Title(s))
  {
    if s != "" {
      assert s[0] in s && forall c :: c in s[1..] ==> c in s;
      if !IsLetter(s[0]) {
        TitleKeepsAlnum(s[1..]);
      }
    }
  }

  lemma {:induction false} JoinedTitlesAreAlnum(parts: seq<string>)
    requires forall p :: p in parts ==> AllAlnum(p)
    ensures AllAlnum(ConcatMap(Title, parts))
  {
    if parts != [] {
      TitleKeepsAlnum(parts[0]);
      JoinedTitlesAreAlnum(parts[1..]);
    }
  }

  // ---------- Order ----------

  function Codes(s: string): (codes: seq<int>)
    ensures |codes| == |s| && forall i :: 0 <= i < |s| ==> codes[i] == s[i] as int
  {
    seq(|s|, i requires 0 <= i < |s| => s[i] as int)
  }

  predicate Below(a: string, b: string) {
    Before(Codes(a), Codes(b))
  }

  lemma BelowIsTotal(a: string, b: string)
    ensures Below(a, b) || a == b || Below(b, a)
    ensures !(Below(a, b) && Below(b, a))
  {
    BeforeIsTotal(Codes(a), Codes(b));
    if Codes(a) == Codes(b) {
      assert forall i :: 0 <= i < |a| ==> a[i] as int == Codes(a)[i] == Codes(b)[i] == b[i] as int;
    }
  }

  ghost predicate Descending(keys: seq<string>) {
    forall i, j :: 0 <= i < j < |keys| ==> Below(keys[j], keys[i])
  }

  // Inserts a key into a descending list; a key already there is not repeated.
  function Insert(key: string, keys: seq<string>): seq<string> {
    if keys == [] then [key]
    else if keys[0] == key then keys
    else if Below(keys[0], key) then [key] + keys
    else [keys[0]] + Insert(key, keys[1..])
  }

  lemma {:induction false} InsertMembers(key: string, keys: seq<string>)
    ensures forall k :: k in Insert(key, keys) <==> k == key || k in keys
  {
    if keys != [] {
      InsertMembers(key, keys[1..]);
      assert keys == [keys[0]] + keys[1..];
    }
  }

  lemma {:induction false} InsertKeepsDescending(key: string, keys: seq<string>)
    requires Descending(keys)
    ensures Descending(Insert(key, keys))
  {
    if keys != [] && keys[0] != key {
      BelowIsTotal(keys[0], key);
      if Below(keys[0], key) {
        forall j | 0 <= j < |keys| ensures Below(keys[j], key) {
          if j > 0 {
            BeforeIsTransitive(Codes(keys[j]), Codes(keys[0]), Codes(key));
          }
        }
      } else {
        InsertKeepsDescending(key, keys[1..]);
        InsertMembers(key, keys[1..]);
        var rest := Insert(key, keys[1..]);
        forall j | 0 <= j < |rest| ensures Below(rest[j], keys[0]) {
          assert rest[j] in rest;
        }
      }
    }
  }
}
