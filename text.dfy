/** String helpers with the meaning Python gives them: `str.rfind` of one
    character, `str.lower` on ASCII letters, `str.endswith`, substring `in`, and
    the decimal rendering of `f'{i:03d}'`. */
module Text {

  /** Index of the last occurrence of `c` in `s`, or -1 when there is none. */
  function LastIndexOf(s: string, c: char): (r: int)
    ensures -1 <= r < |s|
    ensures r >= 0 ==> s[r] == c
    ensures forall k :: r < k < |s| ==> s[k] != c
  {
    if |s| == 0 then -1
    else if s[|s| - 1] == c then |s| - 1
    else LastIndexOf(s[..|s| - 1], c)
  }

  /** `c in s` */
  predicate Occurs(c: char, s: string) {
    exists k | 0 <= k < |s| :: s[k] == c
  }

  lemma LastIndexOfOccurs(s: string, c: char)
    ensures LastIndexOf(s, c) >= 0 <==> Occurs(c, s)
  {
  }

  /** `r` is the last index holding `c`. */
  lemma LastIndexOfIs(s: string, c: char, r: int)
    requires 0 <= r < |s| && s[r] == c
    requires forall k :: r < k < |s| ==> s[k] != c
    ensures LastIndexOf(s, c) == r
  {
    var l := LastIndexOf(s, c);
    assert l >= r;
  }

  /** Appending text without `c` does not move its last occurrence. */
  lemma LastIndexOfAppend(a: string, b: string, c: char)
    requires !Occurs(c, b)
    ensures LastIndexOf(a + b, c) == LastIndexOf(a, c)
  {
    var l := LastIndexOf(a, c);
    if l >= 0 {
      forall k | l < k < |a + b| ensures (a + b)[k] != c {
        if k >= |a| {
          assert (a + b)[k] == b[k - |a|];
        }
      }
      LastIndexOfIs(a + b, c, l);
    } else {
      LastIndexOfOccurs(a, c);
      LastIndexOfOccurs(a + b, c);
      forall k | 0 <= k < |a + b| ensures (a + b)[k] != c {
        if k < |a| {
          assert (a + b)[k] == a[k];
        } else {
          assert (a + b)[k] == b[k - |a|];
        }
      }
    }
  }

  function LowerChar(c: char): char {
    if 'A' <= c <= 'Z' then (c as int - 'A' as int + 'a' as int) as char else c
  }

  /** `str.lower()`, on ASCII letters. */
  function Lower(s: string): (r: string)
    ensures |r| == |s|
    ensures forall k :: 0 <= k < |s| ==> r[k] == LowerChar(s[k])
  {
    if s == [] then [] else [LowerChar(s[0])] + Lower(s[1..])
  }

  predicate StartsWith(s: string, prefix: string) {
    |prefix| <= |s| && s[..|prefix|] == prefix
  }

  predicate EndsWith(s: string, suffix: string) {
    |suffix| <= |s| && s[|s| - |suffix|..] == suffix
  }

  /** Python's `t in s` for strings: `t` is a contiguous piece of `s`. */
  predicate Contains(s: string, t: string) {
    exists i | 0 <= i <= |s| - |t| :: StartsWith(s[i..], t)
  }

  /** Where `t` starts at index `i`, `s` is the text before, `t`, and the text after. */
  lemma StartsWithSplits(s: string, t: string, i: nat)
    requires i <= |s| && StartsWith(s[i..], t)
    ensures s == s[..i] + t + s[i + |t|..]
  {
    assert s[i..][..|t|] == s[i..i + |t|];
    assert s == s[..i] + s[i..i + |t|] + s[i + |t|..];
  }

  predicate IsDigit(c: char) { '0' <= c <= '9' }

  predicate AllDigits(s: string) {
    forall k :: 0 <= k < |s| ==> IsDigit(s[k])
  }

  function DigitChar(d: nat): (c: char)
    requires d < 10
    ensures IsDigit(c)
  {
    ('0' as int + d) as char
  }

  /** The decimal digits of `n`, most significant first, with no leading zero. */
  function Digits(n: nat): (r: string)
    ensures 1 <= |r| && AllDigits(r)
  {
    if n < 10 then [DigitChar(n)] else Digits(n / 10) + [DigitChar(n % 10)]
  }

  /** The number a string of decimal digits denotes (what `int()` reads from it). */
  function DecimalValue(s: string): nat
    requires AllDigits(s)
  {
    if s == [] then 0
    else DecimalValue(s[..|s| - 1]) * 10 + (s[|s| - 1] as int - '0' as int)
  }

  function Zeros(k: nat): (r: string)
    ensures |r| == k && forall j :: 0 <= j < k ==> r[j] == '0'
  {
    if k == 0 then [] else Zeros(k - 1) + ['0']
  }

  /** `f'{n:03d}'`: the digits of `n`, left-padded with zeros to at least three characters. */
  function Pad3(n: nat): string {
    var d := Digits(n);
    (if |d| < 3 then Zeros(3 - |d|) else []) + d
  }

  lemma {:induction false} DigitsValue(n: nat)
    ensures DecimalValue(Digits(n)) == n
  {
    if n >= 10 {
      var d := Digits(n / 10) + [DigitChar(n % 10)];
      assert d[..|d| - 1] == Digits(n / 10);
      DigitsValue(n / 10);
    }
  }

  lemma {:induction false} LeadingZerosValue(k: nat, s: string)
    requires AllDigits(s)
    ensures AllDigits(Zeros(k) + s) && DecimalValue(Zeros(k) + s) == DecimalValue(s)
  {
    if s == [] {
      assert Zeros(k) + s == Zeros(k);
      ZerosValue(k);
    } else {
      var t := s[..|s| - 1];
      assert (Zeros(k) + s)[..|Zeros(k) + s| - 1] == Zeros(k) + t;
      LeadingZerosValue(k, t);
    }
  }

  lemma {:induction false} ZerosValue(k: nat)
    ensures AllDigits(Zeros(k)) && DecimalValue(Zeros(k)) == 0
  {
    if k > 0 {
      assert Zeros(k)[..k - 1] == Zeros(k - 1);
      ZerosValue(k - 1);
    }
  }

  /** `f'{n:03d}'` is at least three digits long, exactly as long as `n`'s own
      digits when those are longer, and reads back as `n`. */
  lemma Pad3Properties(n: nat)
    ensures var r := Pad3(n);
      AllDigits(r) && |r| == (if |Digits(n)| < 3 then 3 else |Digits(n)|)
      && DecimalValue(r) == n
  {
    var d := Digits(n);
    DigitsValue(n);
    if |d| < 3 {
      LeadingZerosValue(3 - |d|, d);
    } else {
      assert Pad3(n) == d;
    }
  }

  /** Distinct page numbers give distinct zero-padded renderings. */
  lemma Pad3Injective(m: nat, n: nat)
    requires Pad3(m) == Pad3(n)
    ensures m == n
  {
    Pad3Properties(m);
    Pad3Properties(n);
  }
}
