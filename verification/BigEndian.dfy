/** Big-endian integers, as the keys of a sorted key-value store hold them. */
module BigEndian {
  import opened Common
  import opened Lexicographic

  function Power256(n: nat): (p: nat)
    ensures p > 0
  {
    if n == 0 then 1 else 256 * Power256(n - 1)
  }

  function Encode(x: nat, n: nat): (s: seq<byte>)
    ensures |s| == n
  {
    if n == 0 then [] else Encode(x / 256, n - 1) + [x % 256]
  }

  function Decode(s: seq<byte>): nat {
    if s == [] then 0 else 256 * Decode(s[..|s|-1]) + s[|s|-1]
  }

  lemma {:induction false} DecodeEncode(x: nat, n: nat)
    requires x < Power256(n)
    ensures Decode(Encode(x, n)) == x
  {
    if n > 0 {
      DecodeEncode(x / 256, n - 1);
      assert Encode(x, n)[..n-1] == Encode(x / 256, n - 1);
    }
  }

  // Fixed-width big-endian keys sort as the numbers do.
  lemma {:induction false} EncodeKeepsOrder(x: nat, y: nat, n: nat)
    requires x < Power256(n) && y < Power256(n)
    ensures Before(Encode(x, n), Encode(y, n)) <==> x < y
    ensures Encode(x, n) == Encode(y, n) <==> x == y
  {
    if n > 0 {
      EncodeKeepsOrder(x / 256, y / 256, n - 1);
      BeforeExtended(Encode(x / 256, n - 1), Encode(y / 256, n - 1), [x % 256], [y % 256]);
      assert Encode(x, n)[..n-1] == Encode(x / 256, n - 1) && Encode(y, n)[..n-1] == Encode(y / 256, n - 1);
      assert Encode(x, n)[n-1] == x % 256 && Encode(y, n)[n-1] == y % 256;
      assert Before([x % 256], [y % 256]) <==> x % 256 < y % 256;
    }
  }
}
