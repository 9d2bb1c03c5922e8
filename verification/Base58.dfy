/** Base58 (src/base58.h): byte vectors as strings over a 58-letter alphabet, through CBigNum. */
module Base58 {
  import opened Basics
  import opened Arithmetic
  import opened BigNum

  // ----- the alphabet

  /** n consecutive characters. */
  function Run(c: char, n: nat): string
    requires c as int + n <= 128
  {
    seq(n, i requires 0 <= i < n => (c as int + i) as char)
  }

  /** Digits and letters without 0, I, O and l. */
  const ALPHABET: string := Run('1', 9) + Run('A', 8) + Run('J', 5) + Run('P', 11) + Run('a', 11) + Run('m', 14)

  function Letter(d: nat): char
    requires d < 58
  {
    if d < 9 then ('1' as int + d) as char
    else if d < 17 then ('A' as int + (d - 9)) as char
    else if d < 22 then ('J' as int + (d - 17)) as char
    else if d < 33 then ('P' as int + (d - 22)) as char
    else if d < 44 then ('a' as int + (d - 33)) as char
    else ('m' as int + (d - 44)) as char
  }

  lemma AlphabetLetters()
    ensures |ALPHABET| == 58 && forall d | 0 <= d < 58 :: ALPHABET[d] == Letter(d)
  {
  }

  lemma AlphabetIs()
    ensures ALPHABET == "123456789" + "ABCDEFGH" + "JKLMN" + "PQRSTUVWXYZ" + "abcdefghijk" + "mnopqrstuvwxyz"
  {
    assert Run('1', 9) == "123456789" && Run('A', 8) == "ABCDEFGH" && Run('J', 5) == "JKLMN";
    assert Run('P', 11) == "PQRSTUVWXYZ" && Run('a', 11) == "abcdefghijk" && Run('m', 14) == "mnopqrstuvwxyz";
  }

  /** strchr into the alphabet: the digit a letter stands for, or 58. */
  function Digit(c: char): (d: nat)
    ensures d <= 58 && (d < 58 ==> Letter(d) == c)
  {
    var x := c as int;
    if '1' <= c <= '9' then x - '1' as int
    else if 'A' <= c <= 'H' then x - 'A' as int + 9
    else if 'J' <= c <= 'N' then x - 'J' as int + 17
    else if 'P' <= c <= 'Z' then x - 'P' as int + 22
    else if 'a' <= c <= 'k' then x - 'a' as int + 33
    else if 'm' <= c <= 'z' then x - 'm' as int + 44
    else 58
  }

  lemma DigitOfLetter(d: nat)
    requires d < 58
    ensures Digit(Letter(d)) == d
  {
  }

  method Strchr(c: char) returns (k: nat)
    ensures k == Digit(c)
  {
    AlphabetLetters();
    k := 0;
    while k < 58 && ALPHABET[k] != c
      invariant k <= 58 && forall j | 0 <= j < k :: ALPHABET[j] != c
    {
      k := k + 1;
    }
    if k < 58 {
      DigitOfLetter(k);
    }
  }

  predicate IsLetter(c: char) {
    Digit(c) < 58
  }

  /** isspace in the C locale. */
  predicate IsSpace(c: char) {
    c == ' ' || 9 <= c as int <= 13
  }

  /** Space, tab, line feed, vertical tab, form feed and carriage return. */
  lemma SpacesAre(c: char)
    ensures IsSpace(c) <==> c as int in {32, 9, 10, 11, 12, 13}
  {
  }

  lemma LettersAreNotSpaces(c: char)
    requires IsLetter(c)
    ensures !IsSpace(c) && c as int != 0
  {
  }

  // ----- strings as numbers

  type D58 = x: int | 0 <= x < 58

  /** The base-58 digits of a number, lowest first. */
  function Digits(n: nat): (s: seq<D58>)
    ensures s != [] ==> s[|s| - 1] != 0
    ensures n > 0 ==> s != []
  {
    if n == 0 then [] else [n % 58] + Digits(n / 58)
  }

  /** The letters of little-endian digits, highest first. */
  function Spell(ds: seq<D58>): (s: string)
    ensures |s| == |ds|
  {
    if ds == [] then "" else Spell(ds[1..]) + [Letter(ds[0])]
  }

  function Value(s: string): nat {
    if s == "" then 0 else Value(s[..|s| - 1]) * 58 + Digit(s[|s| - 1])
  }

  function Repeat<T>(x: T, n: nat): (s: seq<T>)
    ensures |s| == n && forall i | 0 <= i < n :: s[i] == x
  {
    seq(n, _ => x)
  }

  /** How many copies of x a sequence starts with. */
  function Leading<T(==)>(s: seq<T>, x: T): (n: nat)
    ensures n <= |s| && (forall i | 0 <= i < n :: s[i] == x) && (n < |s| ==> s[n] != x)
  {
    if s != [] && s[0] == x then 1 + Leading(s[1..], x) else 0
  }

  lemma {:induction false} LeadingIs<T>(s: seq<T>, x: T, n: nat)
    requires n <= |s| && (forall i | 0 <= i < n :: s[i] == x) && (n < |s| ==> s[n] != x)
    ensures Leading(s, x) == n
  {
  }

  lemma {:induction false} ValueOfSpell(prefix: string, n: nat)
    requires Value(prefix) == 0
    ensures Value(prefix + Spell(Digits(n))) == n
  {
    hide Letter, Digit;
    if n == 0 {
      assert Spell(Digits(0)) == "";
      assert prefix + "" == prefix;
    } else {
      ValueOfSpell(prefix, n / 58);
      var d, more := n % 58, Spell(Digits(n / 58));
      DigitOfLetter(d);
      SpellCons(d, Digits(n / 58));
      ValueSnoc(prefix + more, Letter(d));
      assert prefix + (more + [Letter(d)]) == (prefix + more) + [Letter(d)];
    }
  }

  lemma {:induction false} SpellCons(d: D58, ds: seq<D58>)
    ensures Spell([d] + ds) == Spell(ds) + [Letter(d)]
  {
    assert ([d] + ds)[1..] == ds;
  }

  lemma {:induction false} ValueSnoc(s: string, c: char)
    ensures Value(s + [c]) == Value(s) * 58 + Digit(c)
  {
    assert (s + [c])[..|s|] == s;
  }

  lemma DigitsStep(n: nat, d: D58)
    requires n > 0 || d > 0
    ensures Digits(n * 58 + d) == [d] + Digits(n)
  {
    var m := n * 58 + d;
    assert m % 58 == d && m / 58 == n;
  }

  lemma {:induction false} ValueOfOnes(z: nat)
    ensures Value(Repeat('1', z)) == 0
  {
    if z > 0 {
      ValueOfOnes(z - 1);
      assert Repeat('1', z)[..z - 1] == Repeat('1', z - 1);
    }
  }

  /** A numeral without leading zeros is what its value is spelled as. */
  lemma {:induction false} SpellOfValue(s: string)
    requires (forall c | c in s :: IsLetter(c)) && (s != "" ==> s[0] != '1')
    ensures Spell(Digits(Value(s))) == s
    ensures s != "" ==> Value(s) > 0
  {
    if s != "" {
      hide Letter, Digit, Digits, Value, Spell;
      var t, c := s[..|s| - 1], s[|s| - 1];
      assert s == t + [c];
      assert c in s && forall x | x in t :: x in s;
      SpellOfValue(t);
      SpellOfSnoc(t, c);
    }
  }

  lemma {:induction false} SpellOfSnoc(t: string, c: char)
    requires Spell(Digits(Value(t))) == t && IsLetter(c) && (if t == "" then c != '1' else Value(t) > 0)
    ensures Spell(Digits(Value(t + [c]))) == t + [c] && Value(t + [c]) > 0
  {
    hide Letter, Digits, Spell;
    if t == "" {
      DigitOne(c);
    }
    hide Digit;
    ValueSnoc(t, c);
    hide Value;
    DigitsStep(Value(t), Digit(c));
    SpellCons(Digit(c), Digits(Value(t)));
  }

  lemma DigitOne(c: char)
    requires IsLetter(c) && c != '1'
    ensures Digit(c) != 0
  {
  }

  lemma {:induction false} ValueSkipsOnes(z: nat, s: string)
    ensures Value(Repeat('1', z) + s) == Value(s)
  {
    var t := Repeat('1', z) + s;
    if s == "" {
      assert t == Repeat('1', z);
      ValueOfOnes(z);
    } else {
      ValueSkipsOnes(z, s[..|s| - 1]);
      assert t[..|t| - 1] == Repeat('1', z) + s[..|s| - 1];
    }
  }

  // ----- encoding and decoding as functions

  /** The number a big-endian byte vector stands for. */
  function BeValue(v: seq<Byte>): nat {
    LeValue(Reversed(v))
  }

  /** A '1' for every leading zero byte, then the number. */
  function Encode(v: seq<Byte>): string {
    Repeat('1', Leading(v, 0)) + Spell(Digits(BeValue(v)))
  }

  /** How many letters a string starts with. */
  function Letters(s: string): (n: nat)
    ensures n <= |s| && (forall i | 0 <= i < n :: IsLetter(s[i])) && (n < |s| ==> !IsLetter(s[n]))
  {
    if s != "" && IsLetter(s[0]) then 1 + Letters(s[1..]) else 0
  }

  function Spaces(s: string): (n: nat)
    ensures n <= |s| && (forall i | 0 <= i < n :: IsSpace(s[i])) && (n < |s| ==> !IsSpace(s[n]))
  {
    if s != "" && IsSpace(s[0]) then 1 + Spaces(s[1..]) else 0
  }

  /** The bytes of a numeral: a zero byte for every leading '1', then the number. */
  function Bytes(s: string): seq<Byte> {
    Repeat(0, Leading(s, '1')) + Reversed(LeBytes(Value(s)))
  }

  /** A numeral with nothing but spaces around it. */
  function Decode(s: string): Option<seq<Byte>> {
    var t := s[Spaces(s)..];
    var n := Letters(t);
    if Spaces(t[n..]) == |t[n..]| then Some(Bytes(t[..n])) else None
  }

  // ----- round trips

  lemma {:induction false} LeValueZeros(s: seq<Byte>, z: nat)
    ensures LeValue(s + Repeat(0, z)) == LeValue(s)
  {
    if z == 0 {
      assert s + Repeat(0, 0) == s;
    } else {
      LeValueZeros(s, z - 1);
      LeValueTrailingZero(s + Repeat(0, z - 1));
      assert s + Repeat(0, z) == (s + Repeat(0, z - 1)) + [0];
    }
  }

  /** Leading zeros of the vector and the rest of it. */
  lemma SplitZeros(v: seq<Byte>) returns (z: nat, u: seq<Byte>)
    ensures z == Leading(v, 0) && v == Repeat(0, z) + u && (u != [] ==> u[0] != 0)
    ensures BeValue(v) == LeValue(Reversed(u)) && LeBytes(BeValue(v)) == Reversed(u)
  {
    z := Leading(v, 0);
    u := v[z..];
    assert v == Repeat(0, z) + u;
    assert Reversed(v) == Reversed(u) + Repeat(0, z);
    LeValueZeros(Reversed(u), z);
    LeBytesOfLeValue(Reversed(u));
  }

  lemma {:induction false} SpellHead(ds: seq<D58>)
    requires ds != []
    ensures Spell(ds)[0] == Letter(ds[|ds| - 1])
  {
    if |ds| > 1 {
      SpellHead(ds[1..]);
    }
  }

  /** What Encode produces: letters only, and as many leading '1's as zero bytes. */
  lemma {:induction false} EncodeShape(v: seq<Byte>)
    ensures Leading(Encode(v), '1') == Leading(v, 0)
    ensures Value(Encode(v)) == BeValue(v)
    ensures forall i | 0 <= i < |Encode(v)| :: IsLetter(Encode(v)[i])
  {
    var z, ds := Leading(v, 0), Digits(BeValue(v));
    ValueOfOnes(z);
    ValueOfSpell(Repeat('1', z), BeValue(v));
    SpellLetters(ds);
    if ds != [] {
      SpellHead(ds);
      LetterOne(ds[|ds| - 1]);
    }
    LeadingIs(Encode(v), '1', z);
  }

  lemma LetterOne(d: nat)
    requires 0 < d < 58
    ensures Letter(d) != '1'
  {
  }

  lemma {:induction false} SpellLetters(ds: seq<D58>)
    ensures forall i | 0 <= i < |Spell(ds)| :: IsLetter(Spell(ds)[i])
  {
    if ds != [] {
      SpellLetters(ds[1..]);
      DigitOfLetter(ds[0]);
    }
  }

  lemma BytesOfEncode(v: seq<Byte>)
    ensures Bytes(Encode(v)) == v
  {
    hide Encode, Leading, BeValue;
    EncodeShape(v);
    var z, u := SplitZeros(v);
    ReversedTwice(u);
  }

  lemma {:induction false} LettersIs(s: string, n: nat)
    requires n <= |s| && (forall i | 0 <= i < n :: IsLetter(s[i])) && (n < |s| ==> !IsLetter(s[n]))
    ensures Letters(s) == n
  {
  }

  lemma {:induction false} SpacesIs(s: string, n: nat)
    requires n <= |s| && (forall i | 0 <= i < n :: IsSpace(s[i])) && (n < |s| ==> !IsSpace(s[n]))
    ensures Spaces(s) == n
  {
  }

  /** A numeral is read whatever spaces surround it. */
  lemma DecodePadded(a: string, s: string, b: string)
    requires s != "" && forall i | 0 <= i < |s| :: IsLetter(s[i])
    requires (forall i | 0 <= i < |a| :: IsSpace(a[i])) && forall i | 0 <= i < |b| :: IsSpace(b[i])
    ensures Decode(a + s + b) == Some(Bytes(s))
  {
    hide IsLetter, IsSpace;
    var all := a + s + b;
    LettersAreNotSpaces(s[0]);
    SpacesIs(all, |a|);
    var t := all[|a|..];
    assert t == s + b;
    if b != "" {
      NotLetter(b[0]);
    }
    LettersIs(t, |s|);
    assert t[..|s|] == s && t[|s|..] == b;
    SpacesIs(b, |b|);
  }

  lemma NotLetter(c: char)
    requires IsSpace(c)
    ensures !IsLetter(c)
  {
  }

  lemma EncodeNonEmpty(v: seq<Byte>)
    requires v != []
    ensures Encode(v) != ""
  {
    var z, u := SplitZeros(v);
    if z == 0 {
      assert u == v;
      LeBytesOfLeValue(Reversed(u));
    }
  }

  /** Decoding gives back every byte vector, leading zeros included, even from a padded string. */
  lemma DecodeEncode(v: seq<Byte>, a: string, b: string)
    requires v != []
    requires (forall i | 0 <= i < |a| :: IsSpace(a[i])) && forall i | 0 <= i < |b| :: IsSpace(b[i])
    ensures Decode(Encode(v)) == Some(v) && Decode(a + Encode(v) + b) == Some(v)
  {
    hide Encode, Bytes, Decode, Letters, Spaces, IsSpace, IsLetter;
    EncodeNonEmpty(v);
    EncodeShape(v);
    BytesOfEncode(v);
    DecodePadded(a, Encode(v), b);
    DecodePadded("", Encode(v), "");
    assert "" + Encode(v) + "" == Encode(v);
  }

  /** Encoding gives back every string of letters. */
  lemma EncodeDecode(s: string)
    requires s != "" && forall i | 0 <= i < |s| :: IsLetter(s[i])
    ensures Decode(s).Some? && Encode(Decode(s).value) == s
  {
    hide Decode, IsLetter;
    DecodePadded("", s, "");
    assert "" + s + "" == s;
    EncodeOfBytes(s);
  }

  lemma EncodeOfBytes(s: string)
    requires forall i | 0 <= i < |s| :: IsLetter(s[i])
    ensures Encode(Bytes(s)) == s
  {
    hide IsLetter, Digits, Spell, Value, Leading;
    var z := Leading(s, '1');
    var t := s[z..];
    assert s == Repeat('1', z) + t;
    ValueSkipsOnes(z, t);
    SpellOfValue(t);
    var n := Value(s);
    var w := Bytes(s);
    var u := Reversed(LeBytes(n));
    assert w == Repeat(0, z) + u;
    LeadingIs(w, 0, z);
    assert Reversed(w) == LeBytes(n) + Repeat(0, z);
    LeValueZeros(LeBytes(n), z);
    LeValueOfLeBytes(n);
  }

  // ----- how long an encoding can get

  lemma {:induction false} LeValueBound(s: seq<Byte>)
    ensures LeValue(s) < Pow(256, |s|)
  {
    if s != [] {
      LeValueBound(s[1..]);
    }
  }

  lemma {:induction false} DigitsBound(n: nat, k: nat)
    requires n < Pow(58, k)
    ensures |Digits(n)| <= k
  {
    if n > 0 {
      DigitsBound(n / 58, k - 1);
    }
  }

  /** 58^2 > 256, 58^3 > 256^2 and so on up to 58^11 > 256^8. */
  lemma FirstPowers()
    ensures Pow(58, 0) == 1 && Pow(256, 0) == 1
    ensures Pow(58, 2) >= Pow(256, 1) && Pow(58, 3) >= Pow(256, 2) && Pow(58, 5) >= Pow(256, 3)
    ensures Pow(58, 6) >= Pow(256, 4) && Pow(58, 7) >= Pow(256, 5) && Pow(58, 9) >= Pow(256, 6)
    ensures Pow(58, 10) >= Pow(256, 7) && Pow(58, 11) >= Pow(256, 8)
  {
    assert Pow(58, 1) == 58 && Pow(58, 2) == 58 * Pow(58, 1) && Pow(58, 3) == 58 * Pow(58, 2);
    assert Pow(58, 4) == 58 * Pow(58, 3) && Pow(58, 5) == 58 * Pow(58, 4) && Pow(58, 6) == 58 * Pow(58, 5);
    assert Pow(58, 7) == 58 * Pow(58, 6) && Pow(58, 8) == 58 * Pow(58, 7) && Pow(58, 9) == 58 * Pow(58, 8);
    assert Pow(58, 10) == 58 * Pow(58, 9) && Pow(58, 11) == 58 * Pow(58, 10);
    assert Pow(256, 1) == 256 && Pow(256, 2) == 256 * Pow(256, 1) && Pow(256, 3) == 256 * Pow(256, 2);
    assert Pow(256, 4) == 256 * Pow(256, 3) && Pow(256, 5) == 256 * Pow(256, 4) && Pow(256, 6) == 256 * Pow(256, 5);
    assert Pow(256, 7) == 256 * Pow(256, 6) && Pow(256, 8) == 256 * Pow(256, 7);
  }

  /** Eleven digits for every eight bytes. */
  function Enough(len: nat): nat {
    (11 * len + 7) / 8
  }

  lemma {:induction false} EnoughDigits(len: nat)
    ensures Pow(58, Enough(len)) >= Pow(256, len)
  {
    FirstPowers();
    if len >= 8 {
      EnoughDigits(len - 8);
      PowAdd(58, 11, Enough(len - 8));
      PowAdd(256, 8, len - 8);
      assert Enough(len) == 11 + Enough(len - 8);
      hide Pow;
      MulMonotoneBoth(Pow(256, 8), Pow(58, 11), Pow(256, len - 8), Pow(58, Enough(len - 8)));
    }
  }

  /** The reserved length is never exceeded. */
  lemma EncodedLength(v: seq<Byte>)
    ensures |Encode(v)| <= |v| * 138 / 100 + 1
  {
    hide Leading, Spell;
    var z, u := SplitZeros(v);
    var n := BeValue(v);
    LeValueBound(Reversed(u));
    EnoughDigits(|u|);
    hide Pow;
    DigitsBound(n, Enough(|u|));
    assert |v| == z + |u|;
  }

  // ----- the operations

  /** str.c_str() read as a C string. */
  function CString(s: string): (t: string)
    ensures t <= s && (forall i | 0 <= i < |t| :: t[i] as int != 0)
    ensures (forall i | 0 <= i < |s| :: s[i] as int != 0) ==> t == s
  {
    if s == "" || s[0] as int == 0 then "" else [s[0]] + CString(s[1..])
  }

  method EncodeBase58(v: seq<Byte>) returns (str: string)
    ensures str == Encode(v)
  {
    var tmp: seq<Byte> := Reversed(v) + [0];
    LeValueTrailingZero(Reversed(v));
    var bn := SetVch(tmp);
    assert bn == BeValue(v);
    AlphabetLetters();
    str := SpellNumber(bn);
    hide Letter, Digit, SetVch, Spell, BeValue, ALPHABET, Digits;
    ghost var done := str;
    var p := 0;
    while p < |v| && v[p] == 0
      invariant p <= Leading(v, 0) && str == done + Repeat('1', p)
    {
      str := str + [ALPHABET[0]];
      p := p + 1;
    }
    LeadingIs(v, 0, p);
    assert Reversed(str) == Repeat('1', p) + Reversed(done);
    str := Reversed(str);
  }

  /** The loop that divides by 58: letters, lowest digit first. */
  method SpellNumber(n: nat) returns (str: string)
    ensures Reversed(str) == Spell(Digits(n))
  {
    AlphabetLetters();
    str := "";
    var bn := n;
    ghost var all := Digits(n);
    assert Reversed(str) == Spell(all[..0]);
    assert Digits(0) == [];
    hide Letter, Spell, ALPHABET, Digits;
    while bn > 0
      invariant |str| <= |all| && Digits(bn) == all[|str|..] && Reversed(str) == Spell(all[..|str|])
    {
      SpellStep(all, |str|);
      NextDigit(all, |str|, bn);
      ReverseSnoc(str, ALPHABET[bn % 58]);
      str := str + [ALPHABET[bn % 58]];
      bn := bn / 58;
    }
    assert all[..|str|] == all;
  }

  lemma ReverseSnoc(s: string, c: char)
    ensures Reversed(s + [c]) == [c] + Reversed(s)
  {
  }

  lemma {:induction false} NextDigit(all: seq<D58>, k: nat, n: nat)
    requires k <= |all| && n > 0 && Digits(n) == all[k..]
    ensures k < |all| && all[k] == n % 58 && Digits(n / 58) == all[k + 1..]
  {
    assert all[k..][1..] == all[k + 1..];
  }

  lemma {:induction false} SpellAppend(a: seq<D58>, b: seq<D58>)
    ensures Spell(a + b) == Spell(b) + Spell(a)
  {
    if a == [] {
      assert a + b == b;
    } else {
      SpellAppend(a[1..], b);
      assert (a + b)[1..] == a[1..] + b;
    }
  }

  lemma SpellStep(ds: seq<D58>, k: nat)
    requires k < |ds|
    ensures Spell(ds[..k + 1]) == [Letter(ds[k])] + Spell(ds[..k])
  {
    assert ds[..k + 1] == ds[..k] + [ds[k]];
    SpellAppend(ds[..k], [ds[k]]);
    assert Spell([ds[k]]) == [Letter(ds[k])];
  }

  /** while (isspace(*p)) p++ */
  method SkipSpaces(s: string, start: nat) returns (p: nat)
    requires start <= |s|
    ensures p == start + Spaces(s[start..])
  {
    p := start;
    while p < |s| && IsSpace(s[p])
      invariant start <= p <= |s| && forall i | start <= i < p :: IsSpace(s[i])
    {
      p := p + 1;
    }
    SpacesIs(s[start..], p - start);
  }

  /** The byte vector of a non-negative bignum without its sign byte. */
  lemma {:induction false} TrimSign(n: nat)
    ensures var v := GetVch(n);
            LeBytes(n) == if |v| >= 2 && v[|v| - 1] == 0 && v[|v| - 2] >= 0x80 then v[..|v| - 1] else v
  {
  }

  lemma LetterIffDigit(c: char)
    ensures IsLetter(c) <==> Digit(c) < 58
  {
  }

  method DecodeBase58(str: string) returns (ok: bool, vch: seq<Byte>)
    ensures (if ok then Some(vch) else None) == Decode(CString(str))
    ensures !ok ==> vch == []
  {
    hide Spaces, Letters, CString, IsLetter, Bytes;
    var s := CString(str);
    var start := SkipSpaces(s, 0);
    assert s[0..] == s;
    var psz := s[start..];
    var bn := 0;
    var p := 0;
    while p < |psz|
      invariant p <= |psz| && bn == Value(psz[..p]) && forall i | 0 <= i < p :: IsLetter(psz[i])
    {
      var d := Strchr(psz[p]);
      LetterIffDigit(psz[p]);
      if d == 58 {
        LettersIs(psz, p);
        var q := SkipSpaces(psz, p);
        if q != |psz| {
          return false, [];
        }
        break;
      }
      assert psz[..p + 1][..p] == psz[..p];
      bn := bn * 58 + d;
      p := p + 1;
    }
    if p == |psz| {
      LettersIs(psz, p);
      SpacesIs(psz[p..], 0);
    }
    vch := Assemble(psz, p, bn);
    ok := true;
  }

  /** The end of DecodeBase58: leading zeros, then the bytes of the number. */
  method Assemble(psz: string, ghost n: nat, bn: nat) returns (vch: seq<Byte>)
    requires n <= |psz| && n == Letters(psz) && bn == Value(psz[..n])
    ensures vch == Bytes(psz[..n])
  {
    var tmp := GetVch(bn);
    TrimSign(bn);
    if |tmp| >= 2 && tmp[|tmp| - 1] == 0 && tmp[|tmp| - 2] >= 0x80 {
      tmp := tmp[..|tmp| - 1];
    }
    var zeros := 0;
    while zeros < |psz| && psz[zeros] == '1'
      invariant zeros <= |psz| && forall i | 0 <= i < zeros :: psz[i] == '1'
    {
      zeros := zeros + 1;
    }
    OnesAreLetters(psz, zeros);
    LeadingIs(psz[..n], '1', zeros);
    vch := Repeat(0, zeros) + Reversed(tmp);
  }

  lemma {:induction false} OnesAreLetters(s: string, z: nat)
    requires z <= |s| && forall i | 0 <= i < z :: s[i] == '1'
    ensures z <= Letters(s)
  {
    assert IsLetter('1');
  }

  // ----- with a checksum

  /** hash gives the first four bytes of the double hash. */
  function EncodeCheck(v: seq<Byte>, hash: seq<Byte> -> seq<Byte>): string {
    Encode(v + hash(v))
  }

  function DecodeCheck(s: string, hash: seq<Byte> -> seq<Byte>): Option<seq<Byte>> {
    var r := Decode(s);
    if r.None? || |r.value| < 4 then None
    else
      var v, sum := r.value[..|r.value| - 4], r.value[|r.value| - 4..];
      if hash(v) == sum then Some(v) else None
  }

  method EncodeBase58Check(v: seq<Byte>, hash: seq<Byte> -> seq<Byte>) returns (str: string)
    ensures str == EncodeCheck(v, hash)
  {
    str := EncodeBase58(v + hash(v));
  }

  method DecodeBase58Check(str: string, hash: seq<Byte> -> seq<Byte>) returns (ok: bool, vch: seq<Byte>)
    ensures (if ok then Some(vch) else None) == DecodeCheck(CString(str), hash)
    ensures !ok ==> vch == []
  {
    ok, vch := DecodeBase58(str);
    if !ok {
      return false, [];
    }
    if |vch| < 4 {
      return false, [];
    }
    if hash(vch[..|vch| - 4]) != vch[|vch| - 4..] {
      return false, [];
    }
    vch := vch[..|vch| - 4];
  }

  /** The forms with a checksum round-trip, whatever the hash. */
  lemma CheckRoundTrip(v: seq<Byte>, hash: seq<Byte> -> seq<Byte>)
    requires |hash(v)| == 4
    ensures DecodeCheck(CString(EncodeCheck(v, hash)), hash) == Some(v)
  {
    hide Encode, Decode, CString;
    var w := v + hash(v);
    DecodeEncode(w, "", "");
    EncodeShape(w);
    NoNul(Encode(w));
    assert w[..|w| - 4] == v && w[|w| - 4..] == hash(v);
  }

  lemma {:induction false} NoNul(s: string)
    requires forall i | 0 <= i < |s| :: IsLetter(s[i])
    ensures CString(s) == s
  {
    forall i | 0 <= i < |s|
      ensures s[i] as int != 0
    {
      LettersAreNotSpaces(s[i]);
    }
  }

  /** A string of letters that passes the check is the encoding of what it decodes to. */
  lemma CheckIsExact(s: string, hash: seq<Byte> -> seq<Byte>)
    requires s != "" && (forall i | 0 <= i < |s| :: IsLetter(s[i])) && DecodeCheck(s, hash).Some?
    ensures EncodeCheck(DecodeCheck(s, hash).value, hash) == s
  {
    hide Encode, Decode, IsLetter;
    EncodeDecode(s);
    var w := Decode(s).value;
    assert w == w[..|w| - 4] + w[|w| - 4..];
  }
}
