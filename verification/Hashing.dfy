/** The two key types of the broker's maps: descriptors, read as unsigned integers, and identifiers. */
module Hashing {
  import opened UIntHash

  /** compare_uints. */
  function CompareUInts(a: UInt, b: UInt): int {
    if a == b then 0 else if a < b then -1 else 1
  }

  /** The comparison is that of numbers. */
  lemma UIntsCompare(a: UInt, b: UInt)
    ensures CompareUInts(a, b) < 0 <==> a < b
    ensures CompareUInts(a, b) == 0 <==> a == b
    ensures CompareUInts(a, b) > 0 <==> a > b
  {
  }

  /** The value of hash_string after the characters of s, from 5381 on. */
  function HashFrom(s: string): nat {
    if s == "" then 5381 else (HashFrom(s[..|s| - 1]) * 33 + s[|s| - 1] as int) % 0x1_0000_0000
  }

  /** `(hash << 5) + hash + c` on 32-bit unsigned integers. */
  lemma ShiftAndAdd(hash: UInt, c: nat)
    ensures ((hash * 32) % 0x1_0000_0000 + hash + c) % 0x1_0000_0000 == (hash * 33 + c) % 0x1_0000_0000
  {
  }

  lemma HashFromNext(s: string, i: nat)
    requires i < |s|
    ensures HashFrom(s[..i + 1]) == (HashFrom(s[..i]) * 33 + s[i] as int) % 0x1_0000_0000
  {
    assert s[..i + 1][..i] == s[..i];
  }

  // ---------- the same in closed form ----------

  function Pow33(n: nat): nat {
    if n == 0 then 1 else 33 * Pow33(n - 1)
  }

  /** The sum of the characters, each multiplied by 33 once for every character behind it. */
  function Weighted(s: string): nat {
    if s == "" then 0 else s[0] as int * Pow33(|s| - 1) + Weighted(s[1..])
  }

  lemma {:induction false} WeightedMore(s: string, c: char)
    ensures Weighted(s + [c]) == 33 * Weighted(s) + c as int
    decreases |s|
  {
    if s == "" {
      assert Weighted([c]) == c as int * Pow33(0) + Weighted([c][1..]);
    } else {
      assert (s + [c])[0] == s[0] && (s + [c])[1..] == s[1..] + [c];
      WeightedMore(s[1..], c);
      assert Pow33(|s|) == 33 * Pow33(|s| - 1);
      Regroup(s[0] as int, Pow33(|s| - 1));
    }
  }

  lemma Regroup(a: int, p: int)
    ensures a * (33 * p) == 33 * (a * p)
  {
  }

  lemma TimesModulo(x: nat, c: nat)
    ensures (x % 0x1_0000_0000 * 33 + c) % 0x1_0000_0000 == (x * 33 + c) % 0x1_0000_0000
  {
  }

  /** The hash of a string modulo 2^32: the start value and each character, multiplied by 33 once for every
      character behind. */
  lemma {:induction false} HashInClosedForm(s: string)
    ensures HashFrom(s) == (5381 * Pow33(|s|) + Weighted(s)) % 0x1_0000_0000
    decreases |s|
  {
    if s != "" {
      var t, c := s[..|s| - 1], s[|s| - 1];
      assert s == t + [c];
      HashInClosedForm(t);
      WeightedMore(t, c);
      Regroup(5381, Pow33(|t|));
      TimesModulo(5381 * Pow33(|t|) + Weighted(t), c as int);
    }
  }

  lemma HashesInNumbers()
    ensures HashFrom("") == 5381 && HashFrom("a") == 177670 && HashFrom("C1") == 5862169
  {
  }

  /** hash_string: shifts and adds are those of 32-bit unsigned integers. */
  method HashString(s: string) returns (hash: UInt)
    ensures hash == HashFrom(s) == (5381 * Pow33(|s|) + Weighted(s)) % 0x1_0000_0000
  {
    hash := 5381;
    for i := 0 to |s|
      invariant hash == HashFrom(s[..i])
    {
      HashFromNext(s, i);
      ShiftAndAdd(hash, s[i] as int);
      hash := ((hash * 32) % 0x1_0000_0000 + hash + s[i] as int) % 0x1_0000_0000;
    }
    assert s[..|s|] == s;
    HashInClosedForm(s);
  }

  /** strcmp: 0 on equal strings, else the difference of the first characters that differ. */
  function CompareStrings(a: string, b: string): int {
    if a == "" && b == "" then 0
    else if a == "" then -(b[0] as int)
    else if b == "" then a[0] as int
    else if a[0] != b[0] then a[0] as int - b[0] as int
    else CompareStrings(a[1..], b[1..])
  }

  /** The sign is that of the first difference, where the end of a string counts as the smallest character. */
  lemma {:induction false} FirstDifference(p: string, c: char, d: char, s: string, t: string)
    ensures c != d ==> CompareStrings(p + [c] + s, p + [d] + t) == c as int - d as int
    ensures CompareStrings(p, p + [d] + t) == -(d as int) && CompareStrings(p + [c] + s, p) == c as int
    decreases |p|
  {
    if p == "" {
      assert "" + [c] + s == [c] + s && "" + [d] + t == [d] + t;
    } else {
      assert (p + [c] + s)[1..] == p[1..] + [c] + s && (p + [d] + t)[1..] == p[1..] + [d] + t;
      FirstDifference(p[1..], c, d, s, t);
    }
  }

  /** C strings: the terminator is not one of the characters. */
  type CString = s: string | '\0' !in s

  /** What a buffer of characters is as a C string: all in front of the first terminator. */
  function ReadId(received: string): (id: CString)
    ensures id <= received && (|id| < |received| ==> received[|id|] == '\0')
  {
    if received == "" || received[0] == '\0' then ""
    else
      assert received == [received[0]] + received[1..];
      [received[0]] + ReadId(received[1..])
  }

  lemma ReadWhole(id: CString)
    ensures ReadId(id) == id
  {
  }

  /** Only a string and itself compare as equal, because the terminator does not occur inside. */
  lemma {:induction false} StringsCompare(a: CString, b: CString)
    ensures CompareStrings(a, b) == 0 <==> a == b
    ensures CompareStrings(a, b) > 0 <==> CompareStrings(b, a) < 0
    decreases |a|
  {
    if a != "" && b != "" {
      assert a == [a[0]] + a[1..] && b == [b[0]] + b[1..];
      if a[0] == b[0] {
        StringsCompare(a[1..], b[1..]);
      }
    } else if a != "" {
      assert a[0] in a;
    } else if b != "" {
      assert b[0] in b;
    }
  }

  lemma CStringsCompare()
    ensures forall a: CString, b: CString :: CompareStrings(a, b) == 0 <==> a == b
  {
    forall a: CString, b: CString ensures CompareStrings(a, b) == 0 <==> a == b {
      StringsCompare(a, b);
    }
  }
}
