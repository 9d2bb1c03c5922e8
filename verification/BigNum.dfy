/** The byte interface of CBigNum (src/bignum.h): non-negative integers as little-endian
    vectors whose top bit is a sign bit. */
module BigNum {

  type Byte = x: int | 0 <= x < 256

  /** Little-endian base-256 digits without a leading (last) zero. */
  function LeBytes(n: nat): (s: seq<Byte>)
    ensures s == [] || s[|s| - 1] != 0
    ensures n > 0 ==> s != []
  {
    if n == 0 then [] else [n % 256] + LeBytes(n / 256)
  }

  /** The number a little-endian byte vector stands for. */
  function LeValue(s: seq<Byte>): nat {
    if s == [] then 0 else s[0] + 256 * LeValue(s[1..])
  }

  lemma {:induction false} LeValueOfLeBytes(n: nat)
    ensures LeValue(LeBytes(n)) == n
  {
    if n > 0 {
      LeValueOfLeBytes(n / 256);
      assert LeBytes(n)[1..] == LeBytes(n / 256);
    }
  }

  lemma {:induction false} LeBytesOfLeValue(s: seq<Byte>)
    requires s == [] || s[|s| - 1] != 0
    ensures LeBytes(LeValue(s)) == s
    ensures s != [] ==> LeValue(s) > 0
  {
    if s != [] {
      LeBytesOfLeValue(s[1..]);
      assert LeValue(s) % 256 == s[0];
      assert LeValue(s) / 256 == LeValue(s[1..]);
      assert s == [s[0]] + s[1..];
    }
  }

  /** Zero bytes at the most significant end do not change the value. */
  lemma {:induction false} LeValueTrailingZero(s: seq<Byte>)
    ensures LeValue(s + [0]) == LeValue(s)
  {
    if s == [] {
      assert LeValue([0][1..]) == 0;
    } else {
      LeValueTrailingZero(s[1..]);
      assert (s + [0])[1..] == s[1..] + [0];
    }
  }

  /** CBigNum::getvch of a non-negative number: a zero byte is appended when the top bit of
      the last digit would read as a sign. */
  function GetVch(n: nat): (s: seq<Byte>) {
    var d := LeBytes(n);
    if d != [] && d[|d| - 1] >= 0x80 then d + [0] else d
  }

  /** CBigNum::setvch: the top bit of the last byte is the sign. */
  function SetVch(s: seq<Byte>): int {
    if s == [] then 0
    else
      var last := |s| - 1;
      if s[last] >= 0x80 then 0 - LeValue(s[last := s[last] - 0x80]) else LeValue(s)
  }

  lemma SetVchOfGetVch(n: nat)
    ensures SetVch(GetVch(n)) == n
  {
    LeValueOfLeBytes(n);
    LeValueTrailingZero(LeBytes(n));
  }

  lemma LeBytesShort(n: nat)
    requires n < 0x8000_0000
    ensures |GetVch(n)| <= 4
  {
    var a := n / 256;
    var b := a / 256;
    var c := b / 256;
    assert c < 0x80 && LeBytes(c) == if c == 0 then [] else [c];
    assert |LeBytes(b)| <= 1 + |LeBytes(c)| && |LeBytes(a)| <= 1 + |LeBytes(b)|;
    assert |LeBytes(n)| <= 1 + |LeBytes(a)|;
    var d := LeBytes(n);
    if |d| == 4 {
      assert b > 0 && a > 0;
      assert LeBytes(b) == [b % 256] + LeBytes(c);
      assert LeBytes(a) == [a % 256] + LeBytes(b);
      assert d == [n % 256] + LeBytes(a);
      assert c > 0;
      assert d[3] == LeBytes(a)[2] == LeBytes(b)[1] == c;
    }
  }
}
