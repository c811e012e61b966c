/** Base-128 varints as ethereum/eip712/web3.pb.go writes and reads them. */
module Varint {
  import opened Common

  const TWO64: nat := 0x1_0000_0000_0000_0000
  const TWO63: nat := 0x8000_0000_0000_0000

  datatype Error =
    | IntOverflow | UnexpectedEOF | InvalidLength | UnexpectedEndOfGroup
    | EndGroupForNonGroup | IllegalTag | WrongWireType | IllegalWireType

  // ---------- Reference: little-endian groups of seven bits ----------

  function EncodeVarint(v: nat): (s: seq<byte>)
    ensures s != []
  {
    if v < 128 then [v] else [v % 128 + 128] + EncodeVarint(v / 128)
  }

  function Groups(s: seq<byte>): nat {
    if s == [] then 0 else s[0] % 128 + 128 * Groups(s[1..])
  }

  // The length of the varint at the front of s, k bytes of it having been read before.
  function VarintLength(s: seq<byte>, k: nat): (r: Result<nat, Error>)
    ensures r.Ok? ==> 0 < r.value <= |s|
    decreases |s|
  {
    if k >= 10 then Err(IntOverflow)
    else if s == [] then Err(UnexpectedEOF)
    else if s[0] < 128 then Ok(1)
    else
      match VarintLength(s[1..], k + 1)
      case Err(e) => Err(e)
      case Ok(n) => Ok(n + 1)
  }

  // The varint at the front of s, truncated to 64 bits, and its length.
  function ParseVarint(s: seq<byte>): (r: Result<(nat, nat), Error>)
    ensures r.Ok? ==> r.value.0 < TWO64 && 0 < r.value.1 <= |s|
  {
    match VarintLength(s, 0)
    case Err(e) => Err(e)
    case Ok(n) => Ok((Groups(s[..n]) % TWO64, n))
  }

  // What follows a varint does not change how it is read.
  lemma {:induction false} VarintLengthLocal(s: seq<byte>, t: seq<byte>, k: nat)
    requires VarintLength(s, k).Ok?
    ensures VarintLength(s + t, k) == VarintLength(s, k)
    decreases |s|
  {
    if s[0] >= 128 {
      assert (s + t)[1..] == s[1..] + t;
      VarintLengthLocal(s[1..], t, k + 1);
    }
  }

  // Nor does cutting off what follows it.
  lemma {:induction false} VarintLengthTight(s: seq<byte>, t: seq<byte>, k: nat, n: nat)
    requires VarintLength(s + t, k) == Ok(n) && n <= |s|
    ensures VarintLength(s, k) == Ok(n)
    decreases |s|
  {
    if s[0] >= 128 {
      assert (s + t)[1..] == s[1..] + t;
      VarintLengthTight(s[1..], t, k + 1, n - 1);
    }
  }

  lemma ParseVarintTight(s: seq<byte>, t: seq<byte>)
    requires ParseVarint(s + t).Ok? && ParseVarint(s + t).value.1 <= |s|
    ensures ParseVarint(s) == ParseVarint(s + t)
  {
    var n := ParseVarint(s + t).value.1;
    VarintLengthTight(s, t, 0, n);
    assert (s + t)[..n] == s[..n];
  }

  lemma ParseVarintLocal(s: seq<byte>, t: seq<byte>)
    requires ParseVarint(s).Ok?
    ensures ParseVarint(s + t) == ParseVarint(s)
  {
    VarintLengthLocal(s, t, 0);
    var n := VarintLength(s, 0).value;
    assert (s + t)[..n] == s[..n];
  }

  // ---------- Sizes ----------

  function BitLen(x: nat): nat {
    if x == 0 then 0 else 1 + BitLen(x / 2)
  }

  // x|1
  function OrOne(x: nat): nat {
    if x % 2 == 0 then x + 1 else x
  }

  function Sov(x: nat): nat {
    (BitLen(OrOne(x)) + 6) / 7
  }

  lemma {:induction false} SovIsEncodedLength(v: nat)
    ensures Sov(v) == |EncodeVarint(v)|
  {
    BitLenOrOne(v);
    if v < 128 {
      BitLenSmall(OrOne(v));
    } else {
      SovIsEncodedLength(v / 128);
      BitLenShift(v);
      BitLenOrOne(v / 128);
    }
  }

  lemma BitLenOrOne(y: nat)
    ensures y > 0 ==> BitLen(OrOne(y)) == BitLen(y)
  {
  }

  lemma BitLenSmall(x: nat)
    requires 0 < x < 128
    ensures 1 <= BitLen(x) <= 7
  {
    assert BitLen(x) == 1 + BitLen(x / 2);
    assert x / 2 < 64 && x / 2 / 2 < 32 && x / 2 / 2 / 2 < 16 && x / 2 / 2 / 2 / 2 < 8;
    assert x / 2 / 2 / 2 / 2 / 2 < 4 && x / 2 / 2 / 2 / 2 / 2 / 2 < 2;
    assert BitLen(x / 2 / 2 / 2 / 2 / 2 / 2) <= 1;
    assert BitLen(x / 2 / 2 / 2 / 2) <= 3;
    assert BitLen(x / 2 / 2) <= 5;
  }

  lemma BitLenShift(x: nat)
    requires x >= 128
    ensures BitLen(x) == 7 + BitLen(x / 128)
  {
    var x1 := x / 2;
    var x2 := x1 / 2;
    var x3 := x2 / 2;
    var x4 := x3 / 2;
    var x5 := x4 / 2;
    var x6 := x5 / 2;
    assert BitLen(x) == 1 + BitLen(x1) && BitLen(x1) == 1 + BitLen(x2) && BitLen(x2) == 1 + BitLen(x3);
    assert BitLen(x3) == 1 + BitLen(x4) && BitLen(x4) == 1 + BitLen(x5) && BitLen(x5) == 1 + BitLen(x6);
    assert BitLen(x6) == 1 + BitLen(x6 / 2) && x6 / 2 == x / 128;
  }

  // ---------- Reading what was written ----------

  lemma {:induction false} EncodedVarintLength(v: nat, k: nat)
    requires k + |EncodeVarint(v)| <= 10
    ensures VarintLength(EncodeVarint(v), k) == Ok(|EncodeVarint(v)|)
  {
    if v >= 128 {
      assert EncodeVarint(v)[1..] == EncodeVarint(v / 128);
      EncodedVarintLength(v / 128, k + 1);
    }
  }

  lemma {:induction false} GroupsOfEncoded(v: nat)
    ensures Groups(EncodeVarint(v)) == v
  {
    if v >= 128 {
      assert EncodeVarint(v)[1..] == EncodeVarint(v / 128);
      GroupsOfEncoded(v / 128);
    }
  }

  lemma EncodedFits(v: nat)
    requires v < TWO64
    ensures |EncodeVarint(v)| <= 10
  {
    EncodedFitsIn(v, 10, 0x40_0000_0000_0000_0000);
  }

  lemma {:induction false} EncodedFitsIn(v: nat, n: nat, bound: nat)
    requires n > 0 && v < bound && bound <= Power128(n)
    ensures |EncodeVarint(v)| <= n
  {
    if v >= 128 {
      EncodedFitsIn(v / 128, n - 1, Power128(n - 1));
    }
  }

  function Power128(n: nat): nat {
    if n == 0 then 1 else 128 * Power128(n - 1)
  }

  lemma VarintRoundTrip(v: nat, t: seq<byte>)
    requires v < TWO64
    ensures ParseVarint(EncodeVarint(v) + t) == Ok((v, |EncodeVarint(v)|))
  {
    EncodedFits(v);
    EncodedVarintLength(v, 0);
    GroupsOfEncoded(v);
    assert EncodeVarint(v)[..|EncodeVarint(v)|] == EncodeVarint(v);
    ParseVarintLocal(EncodeVarint(v), t);
  }

  // ---------- The loops ----------

  // encodeVarintWeb3: writes v so that it ends just before offset.
  method EncodeVarintInto(a: array<byte>, offset: nat, v: nat) returns (base: nat)
    requires Sov(v) <= offset <= a.Length
    modifies a
    ensures base == offset - Sov(v) == offset - |EncodeVarint(v)|
    ensures a[base..offset] == EncodeVarint(v)
    ensures forall k :: 0 <= k < base || offset <= k < a.Length ==> a[k] == old(a[k])
  {
    SovIsEncodedLength(v);
    base := offset - Sov(v);
    WriteVarint(a, base, v);
  }

  method WriteVarint(a: array<byte>, base: nat, v: nat)
    requires base + |EncodeVarint(v)| <= a.Length
    modifies a
    ensures forall k :: 0 <= k < |EncodeVarint(v)| ==> a[base + k] == EncodeVarint(v)[k]
    ensures forall k :: 0 <= k < base || base + |EncodeVarint(v)| <= k < a.Length ==> a[k] == old(a[k])
  {
    ghost var code := EncodeVarint(v);
    var n, rest := 0, v;
    while rest >= 128
      invariant 0 <= n < |code|
      invariant code[n..] == EncodeVarint(rest)
      invariant forall k :: 0 <= k < n ==> a[base + k] == code[k]
      invariant forall k :: 0 <= k < base || base + |code| <= k < a.Length ==> a[k] == old(a[k])
      decreases rest
    {
      NextGroup(code, n, rest);
      a[base + n] := rest % 128 + 128;
      rest := rest / 128;
      n := n + 1;
    }
    LastGroup(code, n, rest);
    a[base + n] := rest;
  }

  lemma LastGroup(code: seq<byte>, k: nat, rest: nat)
    requires rest < 128 && k <= |code| && code[k..] == EncodeVarint(rest)
    ensures k + 1 == |code| && code[k] == rest
  {
    assert code[k] == code[k..][0];
  }

  lemma NextGroup(code: seq<byte>, k: nat, rest: nat)
    requires rest >= 128 && k <= |code| && code[k..] == EncodeVarint(rest)
    ensures k + 1 < |code| && code[k] == rest % 128 + 128 && code[k + 1..] == EncodeVarint(rest / 128)
  {
    assert code[k] == code[k..][0] && code[k + 1..] == code[k..][1..];
  }

  // x << n, without truncation.
  function ShiftLeft(x: nat, n: nat): nat {
    if n == 0 then x else 2 * ShiftLeft(x, n - 1)
  }

  lemma {:induction false} GroupsAppend(s: seq<byte>, b: byte)
    ensures Groups(s + [b]) == Groups(s) + ShiftLeft(b % 128, 7 * |s|)
  {
    if s == [] {
      assert s + [b] == [b];
    } else {
      assert (s + [b])[1..] == s[1..] + [b];
      GroupsAppend(s[1..], b);
      ShiftByGroup(b % 128, 7 * |s[1..]|);
    }
  }

  lemma ShiftByGroup(x: nat, n: nat)
    ensures ShiftLeft(x, n + 7) == 128 * ShiftLeft(x, n)
  {
    assert ShiftLeft(x, n + 2) == 4 * ShiftLeft(x, n);
    assert ShiftLeft(x, n + 4) == 4 * ShiftLeft(x, n + 2);
    assert ShiftLeft(x, n + 6) == 4 * ShiftLeft(x, n + 4);
  }

  lemma {:induction false} ShiftAdds(x: nat, y: nat, n: nat)
    ensures ShiftLeft(x + y, n) == ShiftLeft(x, n) + ShiftLeft(y, n)
  {
    if n > 0 {
      ShiftAdds(x, y, n - 1);
    }
  }

  lemma {:induction false} ShiftShifts(x: nat, m: nat, n: nat)
    ensures ShiftLeft(ShiftLeft(x, m), n) == ShiftLeft(x, m + n)
  {
    if n > 0 {
      ShiftShifts(x, m, n - 1);
    }
  }

  lemma {:induction false} ShiftMultiple(q: nat, x: nat, n: nat)
    ensures ShiftLeft(q * x, n) == q * ShiftLeft(x, n)
  {
    if n > 0 {
      ShiftMultiple(q, x, n - 1);
    }
  }

  lemma {:induction false} ShiftIsPositive(x: nat, n: nat)
    requires x > 0
    ensures ShiftLeft(x, n) > 0
  {
    if n > 0 {
      ShiftIsPositive(x, n - 1);
    }
  }

  lemma ShiftBySixtyFour()
    ensures ShiftLeft(1, 64) == TWO64
  {
    ShiftByGroup(1, 1);
    DoubledShift(8, 0x100);
    DoubledShift(16, 0x1_0000);
    DoubledShift(32, 0x1_0000_0000);
  }

  lemma DoubledShift(n: nat, x: nat)
    requires ShiftLeft(1, n) == x
    ensures ShiftLeft(1, 2 * n) == x * x
  {
    ShiftShifts(1, n, n);
    ShiftMultiple(x, 1, n);
  }

  // Bitwise or.
  function Or(a: nat, b: nat): nat {
    if a == 0 then b
    else if b == 0 then a
    else (if a % 2 == 1 || b % 2 == 1 then 1 else 0) + 2 * Or(a / 2, b / 2)
  }

  // Or-ing in bits above all bits of a number is adding them.
  lemma {:induction false} OrIsSum(a: nat, x: nat, n: nat)
    requires a < ShiftLeft(1, n)
    ensures Or(a, ShiftLeft(x, n)) == a + ShiftLeft(x, n)
  {
    if n > 0 && a > 0 && ShiftLeft(x, n) > 0 {
      OrIsSum(a / 2, x, n - 1);
    }
  }

  lemma ShiftParts(x: nat, unit: nat, n: nat)
    requires unit > 0
    ensures ShiftLeft(x, n) == ShiftLeft(x % unit, n) + (x / unit) * ShiftLeft(unit, n)
    ensures ShiftLeft(x % unit, n) + ShiftLeft(1, n) <= ShiftLeft(unit, n)
  {
    var y: nat, q: nat := x % unit, x / unit;
    assert x == y + q * unit;
    ShiftAdds(y, q * unit, n);
    ShiftMultiple(q, unit, n);
    ShiftAdds(y, 1, n);
    ShiftAdds(y + 1, unit - (y + 1), n);
  }

  // A shift that drops what leaves 64 bits is the shift of some other number, and leaves room for n low bits.
  lemma TruncatedShift(x: nat, n: nat) returns (y: nat)
    requires n <= 64
    ensures ShiftLeft(x, n) % TWO64 == ShiftLeft(y, n) && ShiftLeft(y, n) + ShiftLeft(1, n) <= TWO64
  {
    var unit := ShiftLeft(1, 64 - n);
    ShiftIsPositive(1, 64 - n);
    ShiftIsPositive(1, n);
    ShiftShifts(1, 64 - n, n);
    ShiftBySixtyFour();
    ShiftParts(x, unit, n);
    y := x % unit;
    DropMultiple(ShiftLeft(y, n), x / unit);
  }

  lemma {:induction false} DropMultiple(x: nat, q: nat)
    requires x < TWO64
    ensures (x + q * TWO64) % TWO64 == x
  {
    if q > 0 {
      DropMultiple(x, q - 1);
      AddModulo(TWO64, x + (q - 1) * TWO64);
      assert TWO64 + (x + (q - 1) * TWO64) == x + q * TWO64;
    }
  }

  // acc | uint64(b&0x7F)<<shift, in 64 bits.
  function Accumulate(acc: nat, b: byte, shift: nat): nat {
    Or(acc, ShiftLeft(b % 128, shift) % TWO64)
  }

  lemma AccumulateIsSum(acc: nat, b: byte, shift: nat)
    requires acc < ShiftLeft(1, shift) && shift <= 64
    ensures Accumulate(acc, b, shift) == (acc + ShiftLeft(b % 128, shift)) % TWO64
  {
    var y := TruncatedShift(b % 128, shift);
    OrIsSum(acc, y, shift);
    AddModulo(ShiftLeft(b % 128, shift), acc);
  }

  // The bits read so far lie below the next shift.
  lemma {:induction false} GroupsBelowShift(s: seq<byte>)
    ensures Groups(s) < ShiftLeft(1, 7 * |s|)
  {
    if s != [] {
      GroupsBelowShift(s[1..]);
      ShiftByGroup(1, 7 * |s[1..]|);
    }
  }

  lemma {:induction false} AccumulateGroups(s: seq<byte>, b: byte)
    requires |s| < 10
    ensures Accumulate(Groups(s) % TWO64, b, 7 * |s|) == Groups(s + [b]) % TWO64
  {
    GroupsBelowShift(s);
    assert Groups(s) % TWO64 <= Groups(s);
    AccumulateIsSum(Groups(s) % TWO64, b, 7 * |s|);
    GroupsAppend(s, b);
    AddModulo(Groups(s), ShiftLeft(b % 128, 7 * |s|));
  }

  // The bits in the accumulator when the decoding loop fails on s: all that it has read, which is at most ten
  // bytes.
  function BitsRead(s: seq<byte>): nat {
    Groups(if |s| <= 10 then s else s[..10]) % TWO64
  }

  // n bytes of the varint at the front of s are read and none of them was its last.
  ghost predicate Reading(s: seq<byte>, n: nat, acc: nat) {
    && n <= |s| && n <= 10
    && VarintLength(s, 0) == (match VarintLength(s[n..], n) case Err(e) => Err(e) case Ok(k) => Ok(n + k))
    && acc == Groups(s[..n]) % TWO64
  }

  lemma ReadByte(s: seq<byte>, n: nat, acc: nat)
    requires Reading(s, n, acc)
    ensures n == 10 ==> ParseVarint(s) == Err(IntOverflow)
    ensures n < 10 && n == |s| ==> ParseVarint(s) == Err(UnexpectedEOF)
    ensures n == 10 || n == |s| ==> acc == BitsRead(s)
    ensures n < 10 && n < |s| ==>
              var acc' := Accumulate(acc, s[n], 7 * n);
              if s[n] < 128 then ParseVarint(s) == Ok((acc', n + 1)) else Reading(s, n + 1, acc')
  {
    if n < 10 && n < |s| {
      assert s[n..][0] == s[n] && s[n..][1..] == s[n + 1..];
      assert s[..n + 1] == s[..n] + [s[n]];
      AccumulateGroups(s[..n], s[n]);
    } else if n == |s| {
      assert s[..n] == s;
    }
  }

  // The rest of the decoding loop after n bytes.
  function ParseRest(s: seq<byte>, n: nat, acc: nat): Result<(nat, nat), Error>
    decreases |s| - n
  {
    if 7 * n >= 64 then Err(IntOverflow)
    else if n >= |s| then Err(UnexpectedEOF)
    else if s[n] < 128 then Ok((Accumulate(acc, s[n], 7 * n), n + 1))
    else ParseRest(s, n + 1, Accumulate(acc, s[n], 7 * n))
  }

  // The accumulator when that loop ends.
  function BitsAfter(s: seq<byte>, n: nat, acc: nat): nat
    decreases |s| - n
  {
    if 7 * n >= 64 || n >= |s| then acc
    else if s[n] < 128 then Accumulate(acc, s[n], 7 * n)
    else BitsAfter(s, n + 1, Accumulate(acc, s[n], 7 * n))
  }

  lemma {:induction false} ParseRestIsParse(s: seq<byte>, n: nat, acc: nat)
    requires Reading(s, n, acc)
    ensures ParseRest(s, n, acc) == ParseVarint(s)
    ensures ParseVarint(s).Err? ==> BitsAfter(s, n, acc) == BitsRead(s)
    decreases |s| - n
  {
    ReadByte(s, n, acc);
    if n < 10 && n < |s| && s[n] >= 128 {
      ParseRestIsParse(s, n + 1, Accumulate(acc, s[n], 7 * n));
    }
  }

  // The decoding loop: the value and the index after it, and the accumulator, which holds the bits read so far
  // when the loop fails.
  method ReadVarint(d: seq<byte>, start: nat) returns (r: Result<(nat, nat), Error>, acc: nat)
    requires start <= |d|
    ensures r == match ParseVarint(d[start..]) case Err(e) => Err(e) case Ok((v, n)) => Ok((v, start + n))
    ensures acc == if r.Ok? then r.value.0 else BitsRead(d[start..])
  {
    ghost var s := d[start..];
    ghost var whole, bits := ParseVarint(s), BitsAfter(s, 0, 0);
    assert ParseRest(s, 0, 0) == whole && (whole.Err? ==> bits == BitsRead(s)) by {
      assert s[0..] == s && s[..0] == [];
      ParseRestIsParse(s, 0, 0);
    }
    var i, shift := start, 0;
    acc := 0;
    ghost var n: nat := 0;
    while true
      invariant i == start + n <= |d| && shift == 7 * n
      invariant ParseRest(s, n, acc) == whole && BitsAfter(s, n, acc) == bits
      decreases |d| - i
    {
      if shift >= 64 {
        return Err(IntOverflow), acc;
      }
      if i >= |d| {
        return Err(UnexpectedEOF), acc;
      }
      var b := d[i];
      i := i + 1;
      acc := Accumulate(acc, b, shift);
      if b < 128 {
        return Ok((acc, i)), acc;
      }
      shift, n := shift + 7, n + 1;
    }
  }

  // The same loop when the value is not wanted: the index after the varint, from byte k of it on.
  function PassRest(d: seq<byte>, i: nat, k: nat): Result<nat, Error>
    decreases |d| - i
  {
    if 7 * k >= 64 then Err(IntOverflow)
    else if i >= |d| then Err(UnexpectedEOF)
    else if d[i] < 128 then Ok(i + 1)
    else PassRest(d, i + 1, k + 1)
  }

  lemma {:induction false} PassRestIsLength(d: seq<byte>, i: nat, k: nat)
    requires i <= |d| && k <= 10
    ensures PassRest(d, i, k) == match VarintLength(d[i..], k) case Err(e) => Err(e) case Ok(n) => Ok(i + n)
    decreases |d| - i
  {
    if k < 10 && i < |d| && d[i] >= 128 {
      assert d[i..][1..] == d[i + 1..];
      PassRestIsLength(d, i + 1, k + 1);
    }
  }

  method PassVarint(d: seq<byte>, start: nat) returns (r: Result<nat, Error>)
    requires start <= |d|
    ensures r == match VarintLength(d[start..], 0) case Err(e) => Err(e) case Ok(n) => Ok(start + n)
  {
    ghost var whole := PassRest(d, start, 0);
    PassRestIsLength(d, start, 0);
    var i, shift := start, 0;
    ghost var k: nat := 0;
    while true
      invariant i == start + k <= |d| && shift == 7 * k
      invariant PassRest(d, i, k) == whole
      decreases |d| - i
    {
      if shift >= 64 {
        return Err(IntOverflow);
      }
      if i >= |d| {
        return Err(UnexpectedEOF);
      }
      i := i + 1;
      if d[i - 1] < 128 {
        return Ok(i);
      }
      shift, k := shift + 7, k + 1;
    }
  }

  lemma AddModulo(x: nat, y: nat)
    ensures (x % TWO64 + y) % TWO64 == (x + y) % TWO64
  {
    assert x == TWO64 * (x / TWO64) + x % TWO64;
    assert (x % TWO64 + y + TWO64 * (x / TWO64)) % TWO64 == (x % TWO64 + y) % TWO64;
  }
}
