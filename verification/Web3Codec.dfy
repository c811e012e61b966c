/** The protobuf codec of ExtensionOptionsWeb3Tx in ethereum/eip712/web3.pb.go: a printer that fills a
    buffer from its end, and a parser that skips unknown fields and guards every 64-bit sum. */
module Web3Codec {
  import opened Common
  import opened Varint
  import opened FieldStream

  datatype Msg = Msg(chainId: nat, feePayer: seq<byte>, feePayerSig: seq<byte>)

  const EMPTY: Msg := Msg(0, [], [])

  const TAG_CHAIN_ID: byte := 0x08
  const TAG_FEE_PAYER: byte := 0x12
  const TAG_FEE_PAYER_SIG: byte := 0x1a

  // ---------- Printing ----------

  function EncodeChainId(v: nat): seq<byte> {
    if v == 0 then [] else [TAG_CHAIN_ID] + EncodeVarint(v)
  }

  function EncodeBytes(tag: byte, s: seq<byte>): seq<byte> {
    if s == [] then [] else [tag] + (EncodeVarint(|s|) + s)
  }

  function Encode(m: Msg): seq<byte> {
    EncodeChainId(m.chainId) + EncodeBytes(TAG_FEE_PAYER, m.feePayer) + EncodeBytes(TAG_FEE_PAYER_SIG, m.feePayerSig)
  }

  function Size(m: Msg): nat {
    (if m.chainId == 0 then 0 else 1 + Sov(m.chainId))
    + (if |m.feePayer| == 0 then 0 else 1 + |m.feePayer| + Sov(|m.feePayer|))
    + (if |m.feePayerSig| == 0 then 0 else 1 + |m.feePayerSig| + Sov(|m.feePayerSig|))
  }

  lemma SizeIsEncodedLength(m: Msg)
    ensures Size(m) == |Encode(m)|
  {
    SovIsEncodedLength(m.chainId);
    SovIsEncodedLength(|m.feePayer|);
    SovIsEncodedLength(|m.feePayerSig|);
  }

  // ---------- Parsing: the reference ----------

  // Whether the 64-bit x, read as a signed int, is negative. Sums of two non-negative ints stay below
  // 2^64, so a wrapped sum is one that is negative.
  predicate Negative(x: nat) {
    x >= TWO63
  }

  // int32(x).
  function ToInt32(x: nat): int {
    var y := x % 0x1_0000_0000;
    if y < 0x8000_0000 then y else y - 0x1_0000_0000
  }

  // The two conversions are two's complement: i is what the 64 bits of x mean as a signed number.
  lemma NegativeIsSign(x: nat, i: int)
    requires x < TWO64 && i < TWO63 && i + TWO63 >= 0 && (x - i) % TWO64 == 0
    ensures Negative(x) <==> i < 0
  {
    var q := (x - i) / TWO64;
    assert x - i == TWO64 * q;
  }

  lemma Int32IsSigned(x: nat)
    ensures -0x8000_0000 <= ToInt32(x) < 0x8000_0000 && (x - ToInt32(x)) % 0x1_0000_0000 == 0
  {
    var y := x % 0x1_0000_0000;
    assert x - y == 0x1_0000_0000 * (x / 0x1_0000_0000);
    assert x - (y - 0x1_0000_0000) == 0x1_0000_0000 * (x / 0x1_0000_0000 + 1);
  }

  // A length-delimited value at the front of s: where it starts and ends. s[0] stands at index at of the input.
  function ParseBytes(s: seq<byte>, at: nat): (r: Result<(nat, nat), Error>)
    ensures r.Ok? ==> 0 < r.value.0 <= r.value.1 <= |s|
  {
    match ParseVarint(s)
    case Err(e) => Err(e)
    case Ok((length, k)) =>
      if Negative(length) || Negative(at + k + length) then Err(InvalidLength)
      else if k + length > |s| then Err(UnexpectedEOF)
      else Ok((k, k + length))
  }

  // What skipWeb3 does after a tag of the given wire type: the groups then open, and the length passed
  // over, which may overrun s.
  function SkipValue(wireType: nat, s: seq<byte>, at: nat, depth: nat): Result<(nat, nat), Error> {
    if wireType == 0 then
      match VarintLength(s, 0)
      case Err(e) => Err(e)
      case Ok(k) => Ok((depth, k))
    else if wireType == 1 then
      if Negative(at + 8) then Err(InvalidLength) else Ok((depth, 8))
    else if wireType == 2 then
      match ParseVarint(s)
      case Err(e) => Err(e)
      case Ok((length, k)) =>
        if Negative(length) || Negative(at + k + length) then Err(InvalidLength) else Ok((depth, k + length))
    else if wireType == 3 then Ok((depth + 1, 0))
    else if wireType == 4 then
      if depth == 0 then Err(UnexpectedEndOfGroup) else Ok((depth - 1, 0))
    else if wireType == 5 then
      if Negative(at + 4) then Err(InvalidLength) else Ok((depth, 4))
    else Err(IllegalWireType)
  }

  // One record inside skipWeb3, its tag read: the groups open after it and its length.
  function SkipBody(wire: nat, j: nat, s: seq<byte>, at: nat, depth: nat): Result<(nat, nat), Error> {
    ReadValue(SkipValue, wire, j, s, at, depth)
  }

  function SkipRecord(s: seq<byte>, at: nat, depth: nat): (r: Result<(nat, nat), Error>)
    ensures r.Ok? ==> 0 < r.value.1
  {
    ReadTagged(SkipBody, s, at, depth)
  }

  function Skip(s: seq<byte>): Result<nat, Error> {
    ReadBalanced(SkipRecord, s, 0, 0)
  }

  // The value of a known field behind its tag: the updated message and the value's length.
  function ParseValue(fieldNum: int, wireType: nat, s: seq<byte>, at: nat, m: Msg): (r: Result<(Msg, nat), Error>)
    requires 1 <= fieldNum <= 3
    ensures r.Ok? ==> 0 < r.value.1 <= |s|
  {
    if fieldNum == 1 then
      if wireType != 0 then Err(WrongWireType)
      else
        match ParseVarint(s)
        case Err(e) => Err(e)
        case Ok((v, k)) => Ok((m.(chainId := v), k))
    else
      if wireType != 2 then Err(WrongWireType)
      else
        match ParseBytes(s, at)
        case Err(e) => Err(e)
        case Ok((k, post)) =>
          Ok((if fieldNum == 2 then m.(feePayer := s[k..post]) else m.(feePayerSig := s[k..post]), post))
  }

  // A field with an unknown number, tag included: its length.
  function PassUnknown(s: seq<byte>, at: nat): (r: Result<nat, Error>)
    ensures r.Ok? ==> 0 < r.value <= |s|
  {
    match Skip(s)
    case Err(e) => Err(e)
    case Ok(n) =>
      if Negative(at + n) then Err(InvalidLength)
      else if n > |s| then Err(UnexpectedEOF)
      else Ok(n)
  }

  // One field of the message, its tag read and split: the updated message and the field's length.
  function NumberedBody(fieldNum: int, wireType: nat, j: nat, s: seq<byte>, at: nat, m: Msg): (r: Result<(Msg, nat),
                        Error>)
    ensures r.Ok? ==> 0 < r.value.1 <= |s|
  {
    if wireType == 4 then Err(EndGroupForNonGroup)
    else if fieldNum <= 0 then Err(IllegalTag)
    else if j > |s| then Err(UnexpectedEOF)
    else if fieldNum <= 3 then
      match ParseValue(fieldNum, wireType, s[j..], at + j, m)
      case Err(e) => Err(e)
      case Ok((m', n)) => Ok((m', j + n))
    else
      match PassUnknown(s, at)
      case Err(e) => Err(e)
      case Ok(n) => Ok((m, n))
  }

  function FieldBody(wire: nat, j: nat, s: seq<byte>, at: nat, m: Msg): (r: Result<(Msg, nat), Error>)
    ensures r.Ok? ==> 0 < r.value.1 <= |s|
  {
    NumberedBody(ToInt32(wire / 8), wire % 8, j, s, at, m)
  }

  function ParseField(s: seq<byte>, at: nat, m: Msg): (r: Result<(Msg, nat), Error>)
    ensures r.Ok? ==> 0 < r.value.1 <= |s|
  {
    ReadTagged(FieldBody, s, at, m)
  }

  // All fields of s, merged into m.
  function Decode(s: seq<byte>, at: nat, m: Msg): Result<Msg, Error> {
    ReadAll(ParseField, s, at, m)
  }

  // ---------- A field is read the same whatever follows it and wherever it stands ----------

  lemma SkipValueLocal(wireType: nat, s: seq<byte>, t: seq<byte>, at: nat, at': nat, depth: nat)
    requires at' + |s + t| < TWO63
    requires SkipValue(wireType, s, at, depth).Ok? && SkipValue(wireType, s, at, depth).value.1 <= |s|
    ensures SkipValue(wireType, s + t, at', depth) == SkipValue(wireType, s, at, depth)
  {
    if wireType == 0 {
      VarintLengthLocal(s, t, 0);
    } else if wireType == 2 {
      ParseVarintLocal(s, t);
    }
  }

  lemma SkipValuesAreLocal()
    ensures ValueLocal(SkipValue)
  {
    forall w: nat, s, t, at: nat, at': nat, depth: nat |
        at' + |s + t| < TWO63 && SkipValue(w, s, at, depth).Ok? && SkipValue(w, s, at, depth).value.1 <= |s|
      ensures SkipValue(w, s + t, at', depth) == SkipValue(w, s, at, depth)
    {
      SkipValueLocal(w, s, t, at, at', depth);
    }
  }

  lemma SkipRecordLocal()
    ensures Local(SkipRecord)
  {
    assert BodyLocal(SkipBody) by {
      SkipValuesAreLocal();
      forall wire: nat, j: nat, s, t, at: nat, at': nat, depth: nat |
          0 < j <= |s| && at' + |s + t| < TWO63
          && SkipBody(wire, j, s, at, depth).Ok? && SkipBody(wire, j, s, at, depth).value.1 <= |s|
        ensures SkipBody(wire, j, s + t, at', depth) == SkipBody(wire, j, s, at, depth)
      {
        ReadValueLocal(SkipValue, wire, j, s, t, at, at', depth);
      }
    }
    forall s, t, at: nat, at': nat, depth: nat |
        at' + |s + t| < TWO63 && SkipRecord(s, at, depth).Ok? && SkipRecord(s, at, depth).value.1 <= |s|
      ensures SkipRecord(s + t, at', depth) == SkipRecord(s, at, depth)
    {
      ReadTaggedLocal(SkipBody, s, t, at, at', depth);
    }
  }

  lemma SkipLocal(s: seq<byte>, t: seq<byte>)
    requires |s + t| < TWO63 && Skip(s).Ok? && Skip(s).value <= |s|
    ensures Skip(s + t) == Skip(s)
  {
    SkipRecordLocal();
    ReadBalancedLocal(SkipRecord, s, t, 0, 0, 0, Skip(s).value);
  }

  lemma ParseBytesLocal(s: seq<byte>, t: seq<byte>, at: nat, at': nat)
    requires at' + |s + t| < TWO63 && ParseBytes(s, at).Ok?
    ensures ParseBytes(s + t, at') == ParseBytes(s, at)
  {
    ParseVarintLocal(s, t);
  }

  lemma ParseValueLocal(fieldNum: int, wireType: nat, s: seq<byte>, t: seq<byte>,
                        at: nat, at': nat, m: Msg)
    requires 1 <= fieldNum <= 3 && at' + |s + t| < TWO63
    requires ParseValue(fieldNum, wireType, s, at, m).Ok?
    ensures ParseValue(fieldNum, wireType, s + t, at', m) == ParseValue(fieldNum, wireType, s, at, m)
  {
    if fieldNum == 1 {
      ParseVarintLocal(s, t);
    } else {
      ParseBytesLocal(s, t, at, at');
      var (k, post) := ParseBytes(s, at).value;
      assert (s + t)[k..post] == s[k..post];
    }
  }

  lemma NumberedBodyLocal(fieldNum: int, wireType: nat, j: nat, s: seq<byte>, t: seq<byte>,
                          at: nat, at': nat, m: Msg)
    requires 0 < j <= |s| && at' + |s + t| < TWO63 && NumberedBody(fieldNum, wireType, j, s, at, m).Ok?
    ensures NumberedBody(fieldNum, wireType, j, s + t, at', m) == NumberedBody(fieldNum, wireType, j, s, at, m)
  {
    if fieldNum <= 3 {
      var rest := s[j..];
      ParseValueLocal(fieldNum, wireType, rest, t, at + j, at' + j, m);
      assert (s + t)[j..] == rest + t;
    } else {
      SkipLocal(s, t);
    }
  }

  lemma FieldsAreLocal()
    ensures Local(ParseField)
  {
    assert BodyLocal(FieldBody) by {
      forall wire: nat, j: nat, s, t, at: nat, at': nat, m |
          0 < j <= |s| && at' + |s + t| < TWO63 && FieldBody(wire, j, s, at, m).Ok?
        ensures FieldBody(wire, j, s + t, at', m) == FieldBody(wire, j, s, at, m)
      {
        NumberedBodyLocal(ToInt32(wire / 8), wire % 8, j, s, t, at, at', m);
      }
    }
    forall s, t, at: nat, at': nat, m |
        at' + |s + t| < TWO63 && ParseField(s, at, m).Ok? && ParseField(s, at, m).value.1 <= |s|
      ensures ParseField(s + t, at', m) == ParseField(s, at, m)
    {
      ReadTaggedLocal(FieldBody, s, t, at, at', m);
    }
  }

  // Decoding a concatenation is decoding its parts in turn: later fields are merged into earlier ones.
  lemma DecodeConcat(a: seq<byte>, b: seq<byte>, at: nat, at': nat, m: Msg)
    requires at' + |a + b| < TWO63 && Decode(a, at, m).Ok?
    ensures Decode(a + b, at', m) == Decode(b, at' + |a|, Decode(a, at, m).value)
  {
    FieldsAreLocal();
    ReadConcat(ParseField, a, b, at, at', m, Decode(a, at, m).value);
  }

  // ---------- A field is read the same when what follows it is cut off ----------

  lemma SkipValueTight(wireType: nat, s: seq<byte>, t: seq<byte>, at: nat, depth: nat)
    requires SkipValue(wireType, s + t, at, depth).Ok? && SkipValue(wireType, s + t, at, depth).value.1 <= |s|
    ensures SkipValue(wireType, s, at, depth) == SkipValue(wireType, s + t, at, depth)
  {
    if wireType == 0 {
      VarintLengthTight(s, t, 0, SkipValue(wireType, s + t, at, depth).value.1);
    } else if wireType == 2 {
      ParseVarintTight(s, t);
    }
  }

  lemma SkipRecordTight()
    ensures Tight(SkipRecord)
  {
    forall s, t, at: nat, depth: nat |
        SkipRecord(s + t, at, depth).Ok? && SkipRecord(s + t, at, depth).value.1 <= |s|
      ensures SkipRecord(s, at, depth) == SkipRecord(s + t, at, depth)
    {
      var (wire, j) := ParseVarint(s + t).value;
      ParseVarintTight(s, t);
      assert (s + t)[j..] == s[j..] + t;
      SkipValueTight(wire % 8, s[j..], t, at + j, depth);
    }
  }

  lemma SkipTight(s: seq<byte>, t: seq<byte>)
    requires Skip(s + t).Ok? && Skip(s + t).value <= |s|
    ensures Skip(s) == Skip(s + t)
  {
    SkipRecordTight();
    ReadBalancedTight(SkipRecord, s, t, 0, 0, Skip(s + t).value);
  }

  // Skipping a field passes over its tag at least.
  lemma SkipCoversTag(s: seq<byte>)
    requires Skip(s).Ok?
    ensures ParseVarint(s).Ok? && ParseVarint(s).value.1 <= Skip(s).value
  {
  }

  lemma ParseValueTight(fieldNum: int, wireType: nat, s: seq<byte>, t: seq<byte>, at: nat, m: Msg)
    requires 1 <= fieldNum <= 3 && ParseValue(fieldNum, wireType, s + t, at, m).Ok?
    requires ParseValue(fieldNum, wireType, s + t, at, m).value.1 <= |s|
    ensures ParseValue(fieldNum, wireType, s, at, m) == ParseValue(fieldNum, wireType, s + t, at, m)
  {
    ParseVarintTight(s, t);
    if fieldNum != 1 {
      var (k, post) := ParseBytes(s + t, at).value;
      assert (s + t)[k..post] == s[k..post];
    }
  }

  lemma NumberedBodyTight(fieldNum: int, wireType: nat, j: nat, s: seq<byte>, t: seq<byte>, at: nat, m: Msg)
    requires j <= |s| && NumberedBody(fieldNum, wireType, j, s + t, at, m).Ok?
    requires NumberedBody(fieldNum, wireType, j, s + t, at, m).value.1 <= |s|
    ensures NumberedBody(fieldNum, wireType, j, s, at, m) == NumberedBody(fieldNum, wireType, j, s + t, at, m)
  {
    if fieldNum <= 3 {
      assert (s + t)[j..] == s[j..] + t;
      ParseValueTight(fieldNum, wireType, s[j..], t, at + j, m);
    } else {
      SkipTight(s, t);
    }
  }

  lemma FieldCoversTag(s: seq<byte>, at: nat, m: Msg)
    requires ParseField(s, at, m).Ok?
    ensures ParseVarint(s).Ok? && ParseVarint(s).value.1 <= ParseField(s, at, m).value.1
  {
    var (wire, j) := ParseVarint(s).value;
    if ToInt32(wire / 8) > 3 {
      SkipCoversTag(s);
    }
  }

  lemma FieldsAreTight()
    ensures Tight(ParseField)
  {
    forall s, t, at: nat, m | ParseField(s + t, at, m).Ok? && ParseField(s + t, at, m).value.1 <= |s|
      ensures ParseField(s, at, m) == ParseField(s + t, at, m)
    {
      FieldCoversTag(s + t, at, m);
      var (wire, j) := ParseVarint(s + t).value;
      ParseVarintTight(s, t);
      NumberedBodyTight(ToInt32(wire / 8), wire % 8, j, s, t, at, m);
    }
  }

  // ---------- What an error leaves behind ----------

  // The message after the field at the front of s has failed: a chain id whose varint breaks off keeps the bits
  // read so far, everything else is as it was.
  function AfterFailure(s: seq<byte>, m: Msg): Msg {
    match ParseVarint(s)
    case Err(_) => m
    case Ok((wire, j)) => AfterBodyFailure(ToInt32(wire / 8), wire % 8, s[j..], m)
  }

  function AfterBodyFailure(fieldNum: int, wireType: nat, rest: seq<byte>, m: Msg): Msg {
    if fieldNum == 1 && wireType == 0 then m.(chainId := BitsRead(rest)) else m
  }

  // The message that Unmarshal leaves, whether it succeeds or not.
  function Left(s: seq<byte>, at: nat, m: Msg): Msg {
    ReadOut(ParseField, AfterFailure, s, at, m)
  }

  lemma LeftAfterSuccess(s: seq<byte>, at: nat, m: Msg)
    requires Decode(s, at, m).Ok?
    ensures Left(s, at, m) == Decode(s, at, m).value
  {
    ReadOutAll(ParseField, AfterFailure, s, at, m);
  }

  // After an error the message is what the front of the input before the failing field decodes to, but for the
  // bits of a chain id that broke off.
  lemma LeftAfterError(s: seq<byte>, at: nat, m: Msg) returns (k: nat, m1: Msg)
    requires Decode(s, at, m).Err?
    ensures k < |s| && Decode(s[..k], at, m) == Ok(m1) && ParseField(s[k..], at + k, m1).Err?
    ensures Left(s, at, m) == AfterFailure(s[k..], m1)
  {
    FieldsAreTight();
    k, m1 := ReadUntilError(ParseField, AfterFailure, s, at, m);
  }

  // ---------- Round trip ----------

  // The messages the generated struct can hold.
  ghost predicate Representable(m: Msg) {
    m.chainId < TWO64 && |Encode(m)| < TWO63
  }

  lemma OneByteTag(tag: byte)
    requires tag < 128
    ensures ParseVarint([tag]) == Ok((tag, 1))
  {
    VarintRoundTrip(tag, []);
    assert EncodeVarint(tag) + [] == [tag];
  }

  lemma ParseChainId(v: nat, m: Msg)
    requires 0 < v < TWO64
    ensures ParseField(EncodeChainId(v), 0, m) == Ok((m.(chainId := v), |EncodeChainId(v)|))
  {
    var rest := EncodeVarint(v);
    OneByteTag(TAG_CHAIN_ID);
    ReadBehindTag(FieldBody, [TAG_CHAIN_ID], rest, 0, m);
    assert ([TAG_CHAIN_ID] + rest)[1..] == rest + [];
    VarintRoundTrip(v, []);
  }

  lemma ParsePrintedBytes(x: seq<byte>, at: nat)
    requires at + |EncodeVarint(|x|) + x| < TWO63
    ensures ParseBytes(EncodeVarint(|x|) + x, at) == Ok((|EncodeVarint(|x|)|, |EncodeVarint(|x|) + x|))
  {
    VarintRoundTrip(|x|, x);
  }

  lemma BytesBody(fieldNum: int, s: seq<byte>, rest: seq<byte>, k: nat, m: Msg)
    requires fieldNum == 2 || fieldNum == 3
    requires |s| == 1 + |rest| && s[1..] == rest && ParseBytes(rest, 1) == Ok((k, |rest|))
    ensures NumberedBody(fieldNum, 2, 1, s, 0, m) ==
            Ok((if fieldNum == 2 then m.(feePayer := rest[k..]) else m.(feePayerSig := rest[k..]), |s|))
  {
    assert rest[k..|rest|] == rest[k..];
  }

  lemma ParseBytesField(tag: byte, rest: seq<byte>, k: nat, m: Msg)
    requires tag == TAG_FEE_PAYER || tag == TAG_FEE_PAYER_SIG
    requires ParseBytes(rest, 1) == Ok((k, |rest|))
    ensures ParseField([tag] + rest, 0, m) ==
            Ok((if tag == TAG_FEE_PAYER then m.(feePayer := rest[k..]) else m.(feePayerSig := rest[k..]), 1 + |rest|))
  {
    OneByteTag(tag);
    ReadBehindTag(FieldBody, [tag], rest, 0, m);
    BytesBody(if tag == TAG_FEE_PAYER then 2 else 3, [tag] + rest, rest, k, m);
  }

  lemma DecodeChainId(v: nat, m: Msg)
    requires v < TWO64 && m.chainId == 0
    ensures Decode(EncodeChainId(v), 0, m) == Ok(m.(chainId := v))
  {
    if v != 0 {
      ParseChainId(v, m);
      ReadOne(ParseField, EncodeChainId(v), 0, m, m.(chainId := v));
    }
  }

  lemma DecodeBytes(tag: byte, rest: seq<byte>, k: nat, m: Msg, m': Msg)
    requires ParseBytes(rest, 1) == Ok((k, |rest|))
    requires (tag == TAG_FEE_PAYER && m' == m.(feePayer := rest[k..]))
             || (tag == TAG_FEE_PAYER_SIG && m' == m.(feePayerSig := rest[k..]))
    ensures Decode([tag] + rest, 0, m) == Ok(m')
  {
    ParseBytesField(tag, rest, k, m);
    ReadOne(ParseField, [tag] + rest, 0, m, m');
  }

  lemma DecodeBytesField(tag: byte, x: seq<byte>, m: Msg, m': Msg)
    requires (tag == TAG_FEE_PAYER && m.feePayer == [] && m' == m.(feePayer := x))
             || (tag == TAG_FEE_PAYER_SIG && m.feePayerSig == [] && m' == m.(feePayerSig := x))
    requires |EncodeBytes(tag, x)| < TWO63
    ensures Decode(EncodeBytes(tag, x), 0, m) == Ok(m')
  {
    if x != [] {
      var code := EncodeVarint(|x|);
      assert (code + x)[|code|..] == x;
      ParsePrintedBytes(x, 1);
      DecodeBytes(tag, code + x, |code|, m, m');
    }
  }

  // Unmarshal(Marshal(m)) == m, into a fresh message.
  lemma RoundTrip(m: Msg)
    requires Representable(m)
    ensures Decode(Encode(m), 0, EMPTY) == Ok(m)
  {
    FieldsAreLocal();
    var a, b := EncodeChainId(m.chainId), EncodeBytes(TAG_FEE_PAYER, m.feePayer);
    var c := EncodeBytes(TAG_FEE_PAYER_SIG, m.feePayerSig);
    var m1 := EMPTY.(chainId := m.chainId);
    var m2 := m1.(feePayer := m.feePayer);
    DecodeChainId(m.chainId, EMPTY);
    DecodeBytesField(TAG_FEE_PAYER, m.feePayer, m1, m2);
    DecodeBytesField(TAG_FEE_PAYER_SIG, m.feePayerSig, m2, m);
    ReadInTurn(ParseField, a, b, EMPTY, m1, m2);
    ReadInTurn(ParseField, a + b, c, EMPTY, m2, m);
  }

  // ---------- Unknown fields ----------

  // A tag, possibly written with more bytes than needed, and its wire type.
  predicate IsTag(x: seq<byte>, wireType: nat) {
    match ParseVarint(x)
    case Err(_) => false
    case Ok((wire, j)) => j == |x| && wire % 8 == wireType
  }

  // A value of the given wire type, by the encoding's own rules.
  predicate IsValue(wireType: nat, x: seq<byte>) {
    match wireType
    case 0 => VarintLength(x, 0) == Ok(|x|)
    case 1 => |x| == 8
    case 2 => (match ParseVarint(x) case Err(_) => false case Ok((n, k)) => n < TWO63 && |x| == k + n)
    case 5 => |x| == 4
    case _ => false
  }

  predicate IsPlainField(x: seq<byte>) {
    match ParseVarint(x)
    case Err(_) => false
    case Ok((wire, j)) => IsValue(wire % 8, x[j..])
  }

  // Fields are plain, or groups of fields between a start tag and an end tag.
  function WireGrammar(): Grammar {
    Grammar(IsPlainField, x => IsTag(x, 3), x => IsTag(x, 4))
  }

  lemma SkipPlainValue(wireType: nat, x: seq<byte>, at: nat, depth: nat)
    requires IsValue(wireType, x) && at + |x| < TWO63
    ensures SkipValue(wireType, x, at, depth) == Ok((depth, |x|))
  {
  }

  lemma SkipPlainField(x: seq<byte>, at: nat, depth: nat)
    requires IsPlainField(x) && at + |x| < TWO63
    ensures SkipRecord(x, at, depth) == Ok((depth, |x|))
  {
    var (wire, j) := ParseVarint(x).value;
    SkipPlainValue(wire % 8, x[j..], at + j, depth);
  }

  lemma SkipRecordSteps(x: seq<byte>, d: nat, d': nat)
    requires forall at: nat :: at + |x| < TWO63 ==> SkipRecord(x, at, d) == Ok((d', |x|))
    ensures StepsTo(SkipRecord, x, d, d')
  {
    SkipRecordLocal();
    forall t, at: nat | at + |x + t| < TWO63 ensures SkipRecord(x + t, at, d) == Ok((d', |x|)) {
      assert SkipRecord(x, at, d) == Ok((d', |x|));
    }
  }

  lemma PlainFieldSteps(x: seq<byte>, d: nat)
    requires IsPlainField(x)
    ensures StepsTo(SkipRecord, x, d, d)
  {
    forall at: nat | at + |x| < TWO63 ensures SkipRecord(x, at, d) == Ok((d, |x|)) {
      SkipPlainField(x, at, d);
    }
    SkipRecordSteps(x, d, d);
  }

  lemma GroupTagSteps(x: seq<byte>, wireType: nat, d: nat, d': nat)
    requires IsTag(x, wireType) && ((wireType == 3 && d' == d + 1) || (wireType == 4 && d == d' + 1))
    ensures StepsTo(SkipRecord, x, d, d')
  {
    SkipRecordSteps(x, d, d');
  }

  lemma SkipReadsGrammar()
    ensures Reads(SkipRecord, WireGrammar())
  {
    forall x, d: nat | IsPlainField(x) ensures StepsTo(SkipRecord, x, d, d) {
      PlainFieldSteps(x, d);
    }
    forall x, d: nat, d': nat | IsTag(x, 3) && d' == d + 1 ensures StepsTo(SkipRecord, x, d, d') {
      GroupTagSteps(x, 3, d, d');
    }
    forall x, d: nat, d': nat | IsTag(x, 4) && d == d' + 1 ensures StepsTo(SkipRecord, x, d, d') {
      GroupTagSteps(x, 4, d, d');
    }
  }

  // skipWeb3 passes over exactly one field, groups included.
  lemma SkipPrinted(u: Tree, t: seq<byte>)
    requires WellFormed(u, WireGrammar()) && |Print(u) + t| < TWO63
    ensures Skip(Print(u) + t) == Ok(|Print(u)|)
  {
    SkipReadsGrammar();
    ReadTree(SkipRecord, WireGrammar(), u, t);
  }

  // A field whose number is none of the message's own.
  predicate IsUnknown(x: seq<byte>) {
    match ParseVarint(x)
    case Err(_) => false
    case Ok((wire, _)) => ToInt32(wire / 8) > 3 && wire % 8 != 4
  }

  lemma UnknownBody(fieldNum: int, wireType: nat, j: nat, s: seq<byte>, m: Msg, n: nat)
    requires fieldNum > 3 && wireType != 4 && j <= |s| && Skip(s) == Ok(n) && n <= |s| < TWO63
    ensures NumberedBody(fieldNum, wireType, j, s, 0, m) == Ok((m, n))
  {
  }

  lemma UnknownFieldDecodesToNothing(u: Tree, m: Msg)
    requires WellFormed(u, WireGrammar()) && IsUnknown(Print(u)) && |Print(u)| < TWO63
    ensures Decode(Print(u), 0, m) == Ok(m)
  {
    var x := Print(u);
    SkipPrinted(u, []);
    assert x + [] == x;
    var (wire, j) := ParseVarint(x).value;
    UnknownBody(ToInt32(wire / 8), wire % 8, j, x, m, |x|);
    ReadOne(ParseField, x, 0, m, m);
  }

  // An unknown field may stand before, between or behind the known ones: the message is the same.
  lemma UnknownFieldIsIgnored(a: seq<byte>, u: Tree, b: seq<byte>, m: Msg, m1: Msg)
    requires WellFormed(u, WireGrammar()) && IsUnknown(Print(u)) && |a + Print(u) + b| < TWO63
    requires Decode(a, 0, m) == Ok(m1)
    ensures Decode(a + Print(u) + b, 0, m).Ok? <==> Decode(a + b, 0, m).Ok?
    ensures Decode(a + b, 0, m).Ok? ==> Decode(a + Print(u) + b, 0, m) == Decode(a + b, 0, m)
  {
    FieldsAreLocal();
    UnknownFieldDecodesToNothing(u, m1);
    ReadInTurn(ParseField, a, Print(u), m, m1, m1);
    ReadSameTail(ParseField, a, a + Print(u), b, m, m1);
  }

  // ---------- The generated methods ----------

  // The switch of skipWeb3 on the wire type: the groups then open and the index reached.
  method SkipValueAt(d: seq<byte>, wireType: nat, j: nat, depth: nat) returns (r: Result<(nat, nat), Error>)
    requires j <= |d| < TWO63
    ensures r == match SkipValue(wireType, d[j..], j, depth)
                 case Err(e) => Err(e)
                 case Ok((open, n)) => Ok((open, j + n))
  {
    var next, open := j, depth;
    if wireType == 0 {
      var v := PassVarint(d, j);
      if v.Err? {
        return Err(v.error);
      }
      next := v.value;
    } else if wireType == 1 {
      next := j + 8;
    } else if wireType == 2 {
      var v, _ := ReadVarint(d, j);
      if v.Err? {
        return Err(v.error);
      }
      if Negative(v.value.0) {
        return Err(InvalidLength);
      }
      next := v.value.1 + v.value.0;
    } else if wireType == 3 {
      open := depth + 1;
    } else if wireType == 4 {
      if depth == 0 {
        return Err(UnexpectedEndOfGroup);
      }
      open := depth - 1;
    } else if wireType == 5 {
      next := j + 4;
    } else {
      return Err(IllegalWireType);
    }
    if Negative(next) {
      return Err(InvalidLength);
    }
    return Ok((open, next));
  }

  method SkipRecordAt(d: seq<byte>, i: nat, depth: nat) returns (r: Result<(nat, nat), Error>)
    requires i <= |d| < TWO63
    ensures r == match SkipRecord(d[i..], i, depth) case Err(e) => Err(e) case Ok((open, n)) => Ok((open, i + n))
  {
    var tag, _ := ReadVarint(d, i);
    if tag.Err? {
      return Err(tag.error);
    }
    var (wire, j) := tag.value;
    ReadValueAt(SkipValue, wire, d, i, j, depth);
    r := SkipValueAt(d, wire % 8, j, depth);
  }

  // One round of skipWeb3: it ends the skip, or moves on with the groups that are open.
  method SkipRound(d: seq<byte>, i: nat, depth: nat) returns (r: Result<(nat, nat), Error>)
    requires i < |d| < TWO63
    ensures r.Ok? ==> i < r.value.1
    ensures BalancedFrom(SkipRecord, d, i, depth) ==
            match r
            case Err(e) => Err(e)
            case Ok((open, next)) => if open == 0 then Ok(next) else BalancedFrom(SkipRecord, d, next, open)
  {
    BalancedNext(SkipRecord, d, i, depth);
    r := SkipRecordAt(d, i, depth);
  }

  // skipWeb3. Indexes are ints: a sum that is negative has wrapped.
  method SkipWeb3(d: seq<byte>) returns (r: Result<nat, Error>)
    requires |d| < TWO63
    ensures r == Skip(d)
  {
    ghost var whole := Skip(d);
    var i, depth := 0, 0;
    BalancedFromStart(SkipRecord, d);
    while i < |d|
      invariant 0 <= i
      invariant whole == BalancedFrom(SkipRecord, d, i, depth)
      decreases |d| - i
    {
      var step := SkipRound(d, i, depth);
      if step.Err? {
        return Err(step.error);
      }
      if step.value.0 == 0 {
        return Ok(step.value.1);
      }
      depth, i := step.value.0, step.value.1;
    }
    BalancedAtEnd(SkipRecord, d, i, depth);
    return Err(UnexpectedEOF);
  }

  // The buffer is filled from index at to its end with s.
  ghost predicate Holds(a: array<byte>, at: nat, s: seq<byte>)
    reads a
  {
    at + |s| == a.Length && forall k :: 0 <= k < |s| ==> a[at + k] == s[k]
  }

  method PutBytes(a: array<byte>, end: nat, x: seq<byte>, ghost tail: seq<byte>) returns (start: nat)
    requires |x| <= end && Holds(a, end, tail)
    modifies a
    ensures start == end - |x| && Holds(a, start, x + tail)
  {
    start := end - |x|;
    for n := 0 to |x|
      invariant Holds(a, end, tail)
      invariant forall k :: 0 <= k < n ==> a[start + k] == x[k]
    {
      a[start + n] := x[n];
    }
    forall k | 0 <= k < |x + tail| ensures a[start + k] == (x + tail)[k] {
      if k >= |x| {
        assert a[end + (k - |x|)] == tail[k - |x|];
      }
    }
  }

  method PutVarint(a: array<byte>, end: nat, v: nat, ghost tail: seq<byte>) returns (start: nat)
    requires Sov(v) <= end && Holds(a, end, tail)
    modifies a
    ensures start == end - |EncodeVarint(v)| && Holds(a, start, EncodeVarint(v) + tail)
  {
    start := EncodeVarintInto(a, end, v);
    ghost var code := EncodeVarint(v);
    forall k | 0 <= k < |code + tail| ensures a[start + k] == (code + tail)[k] {
      if k >= |code| {
        assert a[end + (k - |code|)] == tail[k - |code|];
      } else {
        assert a[start..end][k] == code[k];
      }
    }
  }

  lemma FourParts<T>(a: seq<T>, b: seq<T>, c: seq<T>, d: seq<T>)
    ensures a + (b + (c + d)) == (a + (b + c)) + d
  {
  }

  lemma EncodeBytesParts(tag: byte, x: seq<byte>, tail: seq<byte>)
    requires x != []
    ensures [tag] + (EncodeVarint(|x|) + (x + tail)) == EncodeBytes(tag, x) + tail
    ensures |EncodeBytes(tag, x)| == 1 + |EncodeVarint(|x|)| + |x|
  {
    FourParts([tag], EncodeVarint(|x|), x, tail);
  }

  // The block MarshalToSizedBuffer has for each length-delimited field.
  method PutBytesField(a: array<byte>, end: nat, tag: byte, x: seq<byte>, ghost tail: seq<byte>) returns (start: nat)
    requires |EncodeBytes(tag, x)| <= end && Holds(a, end, tail)
    modifies a
    ensures start == end - |EncodeBytes(tag, x)| && Holds(a, start, EncodeBytes(tag, x) + tail)
  {
    start := end;
    if |x| > 0 {
      SovIsEncodedLength(|x|);
      start := PutBytes(a, start, x, tail);
      start := PutVarint(a, start, |x|, x + tail);
      start := PutBytes(a, start, [tag], EncodeVarint(|x|) + (x + tail));
      EncodeBytesParts(tag, x, tail);
    } else {
      assert EncodeBytes(tag, x) + tail == tail;
    }
  }

  method PutChainId(a: array<byte>, end: nat, v: nat, ghost tail: seq<byte>) returns (start: nat)
    requires |EncodeChainId(v)| <= end && Holds(a, end, tail)
    modifies a
    ensures start == end - |EncodeChainId(v)| && Holds(a, start, EncodeChainId(v) + tail)
  {
    start := end;
    if v != 0 {
      SovIsEncodedLength(v);
      start := PutVarint(a, start, v, tail);
      start := PutBytes(a, start, [TAG_CHAIN_ID], EncodeVarint(v) + tail);
      assert [TAG_CHAIN_ID] + (EncodeVarint(v) + tail) == EncodeChainId(v) + tail;
    } else {
      assert EncodeChainId(v) + tail == tail;
    }
  }

  // Fills the end of the buffer, the last field first.
  method MarshalToSizedBuffer(m: Msg, a: array<byte>) returns (n: nat)
    requires Size(m) <= a.Length
    modifies a
    ensures n == Size(m) == |Encode(m)|
    ensures Holds(a, a.Length - n, Encode(m))
  {
    SizeIsEncodedLength(m);
    ghost var c := EncodeBytes(TAG_FEE_PAYER_SIG, m.feePayerSig);
    ghost var b := EncodeBytes(TAG_FEE_PAYER, m.feePayer);
    ghost var e := EncodeChainId(m.chainId);
    assert e + (b + (c + [])) == Encode(m);
    var i := PutBytesField(a, a.Length, TAG_FEE_PAYER_SIG, m.feePayerSig, []);
    i := PutBytesField(a, i, TAG_FEE_PAYER, m.feePayer, c + []);
    i := PutChainId(a, i, m.chainId, b + (c + []));
    n := a.Length - i;
  }

  method Marshal(m: Msg) returns (a: array<byte>)
    ensures fresh(a) && a[..] == Encode(m) && a.Length == Size(m)
  {
    a := new byte[Size(m)];
    var n := MarshalToSizedBuffer(m, a);
    assert forall k :: 0 <= k < |Encode(m)| ==> a[0 + k] == Encode(m)[k];
  }

  // ParseBytes on the input itself: where the value starts and ends.
  method ReadBytes(d: seq<byte>, j: nat) returns (r: Result<(nat, nat), Error>)
    requires j <= |d| < TWO63
    ensures r == match ParseBytes(d[j..], j) case Err(e) => Err(e) case Ok((k, post)) => Ok((j + k, j + post))
  {
    var length, _ := ReadVarint(d, j);
    if length.Err? {
      return Err(length.error);
    }
    var (n, k) := length.value;
    if Negative(n) {
      return Err(InvalidLength);
    }
    var post := k + n;
    if Negative(post) {
      return Err(InvalidLength);
    }
    if post > |d| {
      return Err(UnexpectedEOF);
    }
    return Ok((k, post));
  }

  // PassUnknown on the input itself: the index after the field.
  method PassUnknownAt(d: seq<byte>, i: nat) returns (r: Result<nat, Error>)
    requires i < |d| < TWO63
    ensures r == match PassUnknown(d[i..], i) case Err(e) => Err(e) case Ok(n) => Ok(i + n)
  {
    var skippy := SkipWeb3(d[i..]);
    if skippy.Err? {
      return Err(skippy.error);
    }
    if Negative(i + skippy.value) {
      return Err(InvalidLength);
    }
    if i + skippy.value > |d| {
      return Err(UnexpectedEOF);
    }
    return Ok(i + skippy.value);
  }

  class ExtensionOptionsWeb3Tx {
    var typedDataChainID: nat
    var feePayer: seq<byte>
    var feePayerSig: seq<byte>

    ghost function View(): Msg
      reads this
    {
      Msg(typedDataChainID, feePayer, feePayerSig)
    }

    constructor ()
      ensures View() == EMPTY
    {
      typedDataChainID, feePayer, feePayerSig := 0, [], [];
    }

    // One round of the outer loop: the index after the field.
    method UnmarshalField(d: seq<byte>, i: nat) returns (r: Result<nat, Error>)
      requires i < |d| < TWO63
      modifies this
      ensures match ParseField(d[i..], i, old(View()))
              case Err(e) => r == Err(e) && View() == AfterFailure(d[i..], old(View()))
              case Ok((m, n)) => r == Ok(i + n) && View() == m
    {
      var tag, _ := ReadVarint(d, i);
      if tag.Err? {
        return Err(tag.error);
      }
      var (wire, j) := tag.value;
      ReadTaggedIs(FieldBody, d[i..], i, View(), wire, j - i);
      assert d[i..][j - i..] == d[j..];
      r := UnmarshalBody(d, i, j, ToInt32(wire / 8), wire % 8);
    }

    method UnmarshalBody(d: seq<byte>, i: nat, j: nat, fieldNum: int, wireType: nat) returns (r: Result<nat, Error>)
      requires i < j <= |d| < TWO63
      modifies this
      ensures match NumberedBody(fieldNum, wireType, j - i, d[i..], i, old(View()))
              case Err(e) => r == Err(e) && View() == AfterBodyFailure(fieldNum, wireType, d[j..], old(View()))
              case Ok((m, n)) => r == Ok(i + n) && View() == m
    {
      if wireType == 4 {
        return Err(EndGroupForNonGroup);
      }
      if fieldNum <= 0 {
        return Err(IllegalTag);
      }
      if fieldNum <= 3 {
        assert d[i..][j - i..] == d[j..];
        r := UnmarshalKnown(d, fieldNum, wireType, j);
      } else {
        r := PassUnknownAt(d, i);
      }
    }

    method UnmarshalKnown(d: seq<byte>, fieldNum: int, wireType: nat, j: nat) returns (r: Result<nat, Error>)
      requires 1 <= fieldNum <= 3 && j <= |d| < TWO63
      modifies this
      ensures match ParseValue(fieldNum, wireType, d[j..], j, old(View()))
              case Err(e) => r == Err(e) && View() == AfterBodyFailure(fieldNum, wireType, d[j..], old(View()))
              case Ok((m, n)) => r == Ok(j + n) && View() == m
    {
      if fieldNum == 1 {
        if wireType != 0 {
          return Err(WrongWireType);
        }
        var v, bits := ReadVarint(d, j);
        typedDataChainID := bits;
        if v.Err? {
          return Err(v.error);
        }
        return Ok(v.value.1);
      }
      if wireType != 2 {
        return Err(WrongWireType);
      }
      var v := ReadBytes(d, j);
      if v.Err? {
        return Err(v.error);
      }
      var (k, post) := v.value;
      assert d[j..][k - j..post - j] == d[k..post];
      if fieldNum == 2 {
        feePayer := d[k..post];
      } else {
        feePayerSig := d[k..post];
      }
      return Ok(post);
    }

    // Returns the error, if any, and the index at which parsing stopped.
    method Unmarshal(d: seq<byte>) returns (err: Option<Error>, index: nat)
      requires |d| < TWO63
      modifies this
      ensures View() == Left(d, 0, old(View()))
      ensures match Decode(d, 0, old(View()))
              case Err(e) => err == Some(e)
              case Ok(m) => err == None && View() == m && index == |d|
    {
      index := 0;
      assert d[0..] == d;
      while index < |d|
        invariant index <= |d|
        invariant Decode(d, 0, old(View())) == Decode(d[index..], index, View())
        invariant Left(d, 0, old(View())) == Left(d[index..], index, View())
        decreases |d| - index
      {
        var r := UnmarshalField(d, index);
        if r.Err? {
          return Some(r.error), index;
        }
        assert d[index..][r.value - index..] == d[r.value..];
        index := r.value;
      }
      return None, index;
    }
  }
}
