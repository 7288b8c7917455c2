/** The id of a mention: its offsets and its text, as the review, its clients and the site spell it. */
module Mentions {
  import opened Text

  /** `mention_id`. */
  function MentionId(start: nat, end: nat, text: string): string
  {
    Decimal(start) + ":" + Decimal(end) + ":" + text
  }

  lemma {:induction false} ColonSplits(a: string, x: string, b: string, y: string)
    requires AllDigits(a) && AllDigits(b) && a + ":" + x == b + ":" + y
    ensures a == b && x == y
  {
    var s, t := a + ":" + x, b + ":" + y;
    assert s[|a|] == ':' && t[|b|] == ':';
    assert forall i :: 0 <= i < |a| ==> s[i] == a[i];
    assert forall i :: 0 <= i < |b| ==> t[i] == b[i];
    assert |a| == |b|;
    assert s[..|a|] == a && t[..|b|] == b;
    assert s[|a| + 1..] == x && t[|b| + 1..] == y;
  }

  /** A mention id names one span only. */
  lemma MentionIdInjective(a: nat, b: nat, s: string, c: nat, d: nat, t: string)
    requires MentionId(a, b, s) == MentionId(c, d, t)
    ensures a == c && b == d && s == t
  {
    assert Decimal(a) + ":" + (Decimal(b) + ":" + s) == MentionId(a, b, s);
    assert Decimal(c) + ":" + (Decimal(d) + ":" + t) == MentionId(c, d, t);
    ColonSplits(Decimal(a), Decimal(b) + ":" + s, Decimal(c), Decimal(d) + ":" + t);
    ColonSplits(Decimal(b), s, Decimal(d), t);
    DecimalInjective(a, c);
    DecimalInjective(b, d);
  }
}
