/** Characters, decimal numerals and substring search, as Python's `str` provides them. */
module Text {

  datatype Option<+T> = None | Some(value: T)

  predicate IsHex(c: char) { '0' <= c <= '9' || 'a' <= c <= 'f' }

  predicate IsDigit(c: char) { '0' <= c <= '9' }

  predicate AllHex(s: string) { forall i :: 0 <= i < |s| ==> IsHex(s[i]) }

  predicate AllDigits(s: string) { forall i :: 0 <= i < |s| ==> IsDigit(s[i]) }

  /** The character of a one-digit number. */
  function DigitChar(d: nat): (c: char)
    requires d < 10
    ensures IsDigit(c)
  {
    '0' + d as char
  }

  /** `str(n)` for a non-negative integer. */
  function Decimal(n: nat): (s: string)
    ensures |s| > 0 && AllDigits(s)
  {
    if n < 10 then [DigitChar(n)] else Decimal(n / 10) + [DigitChar(n % 10)]
  }

  /** The number a digit string denotes: `int(s)`. */
  function Value(s: string): nat
    requires AllDigits(s)
  {
    if s == "" then 0 else 10 * Value(s[..|s| - 1]) + (s[|s| - 1] - '0') as nat
  }

  /** Parsing undoes printing. */
  lemma {:induction false} ValueOfDecimal(n: nat)
    ensures Value(Decimal(n)) == n
  {
    if n >= 10 {
      ValueOfDecimal(n / 10);
      var s := Decimal(n);
      assert s[..|s| - 1] == Decimal(n / 10);
    } else {
      assert Decimal(n)[..0] == "";
    }
  }

  lemma DecimalInjective(m: nat, n: nat)
    requires Decimal(m) == Decimal(n)
    ensures m == n
  {
    ValueOfDecimal(m);
    ValueOfDecimal(n);
  }

  /** `str(n)` for any integer. */
  function SignedDecimal(n: int): (s: string)
    ensures |s| > 0
  {
    if n < 0 then "-" + Decimal(-n) else Decimal(n)
  }

  lemma SignedDecimalInjective(m: int, n: int)
    requires SignedDecimal(m) == SignedDecimal(n)
    ensures m == n
  {
    assert Decimal(if m < 0 then -m else m)[0] != '-' && Decimal(if n < 0 then -n else n)[0] != '-';
    if m < 0 {
      assert SignedDecimal(m)[1..] == Decimal(-m);
      assert SignedDecimal(n)[0] == '-';
      assert SignedDecimal(n)[1..] == Decimal(-n);
      DecimalInjective(-m, -n);
    } else {
      assert SignedDecimal(n)[0] != '-';
      DecimalInjective(m, n);
    }
  }

  /** `"0" * count`. */
  function Zeros(count: nat): (s: string)
    ensures |s| == count && forall i :: 0 <= i < count ==> s[i] == '0'
  {
    if count == 0 then "" else Zeros(count - 1) + "0"
  }

  /** `f"{n:04d}"`: at least four digits, more when the number needs them. */
  function Padded(n: nat): (s: string)
    ensures |s| >= 4 && AllDigits(s)
  {
    var d := Decimal(n);
    if |d| < 4 then Zeros(4 - |d|) + d else d
  }

  lemma {:induction false} ValueOfZerosPlus(count: nat, d: string)
    requires AllDigits(d)
    ensures AllDigits(Zeros(count) + d) && Value(Zeros(count) + d) == Value(d)
    decreases count + |d|
  {
    var s := Zeros(count) + d;
    if |d| > 0 {
      ValueOfZerosPlus(count, d[..|d| - 1]);
      assert s[..|s| - 1] == Zeros(count) + d[..|d| - 1];
    } else if count > 0 {
      ValueOfZerosPlus(count - 1, d);
      assert s[..|s| - 1] == Zeros(count - 1) + d;
    } else {
      assert s == d;
    }
  }

  /** Two indices never share a placeholder number. */
  lemma PaddedInjective(m: nat, n: nat)
    requires Padded(m) == Padded(n)
    ensures m == n
  {
    ValueOfDecimal(m);
    ValueOfDecimal(n);
    if |Decimal(m)| < 4 { ValueOfZerosPlus(4 - |Decimal(m)|, Decimal(m)); }
    if |Decimal(n)| < 4 { ValueOfZerosPlus(4 - |Decimal(n)|, Decimal(n)); }
  }

  /** `text[at:].startswith(needle)`. */
  predicate OccursAt(text: string, needle: string, at: nat)
  {
    at + |needle| <= |text| && text[at..at + |needle|] == needle
  }

  /** `needle in text`. */
  ghost predicate Contains(text: string, needle: string)
  {
    exists at: nat :: OccursAt(text, needle, at)
  }

  /** `text.find(needle, start)`. */
  function Find(text: string, needle: string, start: nat): (r: Option<nat>)
    ensures r.Some? ==> start <= r.value && OccursAt(text, needle, r.value)
                        && forall at: nat :: start <= at < r.value ==> !OccursAt(text, needle, at)
    ensures r.None? ==> forall at: nat :: start <= at ==> !OccursAt(text, needle, at)
    decreases |text| - start
  {
    if start + |needle| > |text| then None
    else if OccursAt(text, needle, start) then Some(start)
    else Find(text, needle, start + 1)
  }

  /** `text[start:].count(needle)`: occurrences that do not overlap, from the left. */
  function CountFrom(text: string, needle: string, start: nat): nat
    requires |needle| > 0
    decreases |text| - start
  {
    match Find(text, needle, start)
    case None => 0
    case Some(at) => 1 + CountFrom(text, needle, at + |needle|)
  }

  function Count(text: string, needle: string): nat
    requires |needle| > 0
  {
    CountFrom(text, needle, 0)
  }

  /** `text[start:].replace(needle, official)`. */
  function ReplaceFrom(text: string, needle: string, official: string, start: nat): string
    requires |needle| > 0 && start <= |text|
    decreases |text| - start
  {
    match Find(text, needle, start)
    case None => text[start..]
    case Some(at) => text[start..at] + official + ReplaceFrom(text, needle, official, at + |needle|)
  }

  function Replace(text: string, needle: string, official: string): string
    requires |needle| > 0
  {
    ReplaceFrom(text, needle, official, 0)
  }

  /** With exactly one occurrence, counting finds one and replacing swaps just that one. */
  lemma UniqueOccurrence(text: string, needle: string, official: string, at: nat)
    requires |needle| > 0 && OccursAt(text, needle, at)
    requires forall q: nat :: OccursAt(text, needle, q) ==> q == at
    ensures Count(text, needle) == 1
    ensures Find(text, needle, 0) == Some(at)
    ensures Replace(text, needle, official) == text[..at] + official + text[at + |needle|..]
  {
    var first, after := Find(text, needle, 0), at + |needle|;
    assert first.Some? && first.value == at;
    assert Find(text, needle, after).None?;
    assert CountFrom(text, needle, after) == 0;
    assert ReplaceFrom(text, needle, official, after) == text[after..];
    assert text[0..at] == text[..at];
  }

  /** Two or more separate occurrences are counted as at least two. */
  lemma TwoOccurrences(text: string, needle: string, p: nat, q: nat)
    requires |needle| > 0 && OccursAt(text, needle, p) && OccursAt(text, needle, q)
    requires p + |needle| <= q
    ensures Count(text, needle) >= 2
  {
    var first := Find(text, needle, 0);
    assert first.Some? && first.value <= p;
    var second := Find(text, needle, first.value + |needle|);
    assert second.Some?;
    assert CountFrom(text, needle, first.value + |needle|) >= 1;
  }
}
