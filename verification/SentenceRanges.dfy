/** Cutting a text into sentences, decimal points kept inside. */
module SentenceRanges {
  import opened TelegramText

  /** `_SENTENCE_END`: full stops, exclamation and question marks, Western and CJK, and line ends. */
  predicate IsMark(c: char)
  {
    c == '.' || c == '!' || c == '?' || c == '\n' || (c as int) in {0x3002, 0xFF0E, 0xFF01, 0xFF1F}
  }

  predicate IsStop(c: char) { c == '.' || c as int == 0xFF0E }

  /** `_is_sentence_end_v2`; `digit` stands for `str.isdigit`.  With no digits at all it is the v1 test. */
  predicate IsEnd(text: string, i: nat, digit: char -> bool)
    requires i < |text|
  {
    IsMark(text[i]) && !(IsStop(text[i]) && 0 < i && i + 1 < |text| && digit(text[i - 1]) && digit(text[i + 1]))
  }

  predicate IsSeparator(c: char) { IsMark(c) || IsSpace(c) }

  /** `_separator_only`. */
  predicate SeparatorOnly(text: string, a: nat, b: nat)
    requires b <= |text|
  {
    a < b && forall i :: a <= i < b ==> IsSeparator(text[i])
  }

  /**
   A sentence: it begins where the text or the line of the last closing marks ends, runs up to the
   next closing mark, and takes that mark and all that follow it directly.
   */
  ghost predicate IsSentence(text: string, a: nat, b: nat, digit: char -> bool)
  {
    && a < b <= |text| && !SeparatorOnly(text, a, b)
    && (a > 0 ==> IsEnd(text, a - 1, digit) && !IsEnd(text, a, digit))
    && (b < |text| ==> IsEnd(text, b - 1, digit) && !IsEnd(text, b, digit))
    && exists m :: StopsAt(text, a, m, b, digit)
  }

  ghost predicate StopsAt(text: string, a: nat, m: nat, b: nat, digit: char -> bool)
    requires b <= |text|
  {
    a <= m <= b && (forall i :: a <= i < m ==> !IsEnd(text, i, digit))
        && (forall i :: m <= i < b ==> IsEnd(text, i, digit))
  }

  ghost predicate Covered(ranges: seq<(nat, nat)>, i: nat)
  {
    exists r <- ranges :: r.0 <= i < r.1
  }

  /** Sentences in order, without overlap, that miss no character other than a separator. */
  ghost predicate Tiles(text: string, ranges: seq<(nat, nat)>, upto: nat, digit: char -> bool)
    requires upto <= |text|
  {
    && (forall r <- ranges :: IsSentence(text, r.0, r.1, digit) && r.1 <= upto)
    && (forall i, j :: 0 <= i < j < |ranges| ==> ranges[i].1 <= ranges[j].0)
    && (forall i: nat :: i < upto && !IsSeparator(text[i]) ==> Covered(ranges, i))
  }

  /** Where a sentence may begin, and where it may end. */
  ghost predicate Boundary(text: string, at: nat, digit: char -> bool)
    requires at <= |text|
  {
    (at > 0 ==> IsEnd(text, at - 1, digit)) && (0 < at < |text| ==> !IsEnd(text, at, digit))
  }

  lemma NothingTiled(text: string, digit: char -> bool)
    ensures Tiles(text, [], 0, digit) && Boundary(text, 0, digit)
  {
  }

  lemma TilesGrow(text: string, ranges: seq<(nat, nat)>, a: nat, m: nat, b: nat, digit: char -> bool)
    requires a <= b <= |text| && Tiles(text, ranges, a, digit)
    requires Boundary(text, a, digit) && (b < |text| ==> Boundary(text, b, digit)) && StopsAt(text, a, m, b, digit)
    ensures Tiles(text, if a < b && !SeparatorOnly(text, a, b) then ranges + [(a, b)] else ranges, b, digit)
  {
    var longer := if a < b && !SeparatorOnly(text, a, b) then ranges + [(a, b)] else ranges;
    forall i: nat | i < b && !IsSeparator(text[i]) ensures Covered(longer, i)
    {
      if i < a {
        assert Covered(ranges, i);
      } else {
        assert (a, b) in longer;
      }
    }
    if a < b && !SeparatorOnly(text, a, b) { assert IsSentence(text, a, b, digit); }
    forall r <- longer ensures IsSentence(text, r.0, r.1, digit) && r.1 <= b { assert r in ranges || r == (a, b); }
    forall i, j | 0 <= i < j < |longer| ensures longer[i].1 <= longer[j].0
    {
      if j == |ranges| { assert longer[i] in ranges; }
    }
  }

  /** The code's fallback to one range for the whole text can never apply. */
  lemma NoFallback(text: string, ranges: seq<(nat, nat)>, digit: char -> bool)
    requires Tiles(text, ranges, |text|, digit)
    ensures ranges == [] ==> text == "" || SeparatorOnly(text, 0, |text|)
  {
    forall i: nat | i < |text| && !IsSeparator(text[i]) ensures ranges != []
    {
      assert Covered(ranges, i);
    }
  }

  /** `_sentence_ranges_v2`. */
  method Ranges(text: string, digit: char -> bool) returns (ranges: seq<(nat, nat)>)
    ensures Tiles(text, ranges, |text|, digit)
  {
    hide Tiles, IsEnd, SeparatorOnly;
    ranges := [];
    var start: nat, index: nat := 0, 0;
    NothingTiled(text, digit);
    while index < |text|
      invariant start <= index <= |text|
      invariant Boundary(text, start, digit) && Tiles(text, ranges, start, digit)
      invariant forall i :: start <= i < index ==> !IsEnd(text, i, digit)
    {
      if IsEnd(text, index, digit) {
        var end := index + 1;
        while end < |text| && IsEnd(text, end, digit)
          invariant index < end <= |text| && forall i :: index <= i < end ==> IsEnd(text, i, digit)
        {
          end := end + 1;
        }
        TilesGrow(text, ranges, start, index, end, digit);
        if start < end && !SeparatorOnly(text, start, end) { ranges := ranges + [(start, end)]; }
        start, index := end, end;
      } else {
        index := index + 1;
      }
    }
    TilesGrow(text, ranges, start, |text|, |text|, digit);
    if start < |text| && !SeparatorOnly(text, start, |text|) { ranges := ranges + [(start, |text|)]; }
  }

  /** A character that ends a sentence, and no decimal point. */
  predicate Closes(text: string, i: nat, digit: char -> bool)
    requires i < |text|
  {
    || text[i] in "!?\n" || text[i] == '\U{3002}' || text[i] == '\U{FF01}' || text[i] == '\U{FF1F}'
    || ((text[i] == '.' || text[i] == '\U{FF0E}')
        && (i == 0 || i + 1 == |text| || !digit(text[i - 1]) || !digit(text[i + 1])))
  }

  /**
   Sentences end exactly where the text says so: every range that stops short of the end stops behind a
   closing character and before none, and no closing character inside is followed by anything but one.
   */
  lemma RangesClose(text: string, ranges: seq<(nat, nat)>, k: nat, digit: char -> bool)
    requires Tiles(text, ranges, |text|, digit) && k < |ranges|
    ensures var (a, b) := ranges[k];
            && a < b <= |text| && (b < |text| ==> Closes(text, b - 1, digit) && !Closes(text, b, digit))
            && (a > 0 ==> Closes(text, a - 1, digit))
            && forall i :: a <= i < i + 1 < b && Closes(text, i, digit) ==> Closes(text, i + 1, digit)
  {
    var (a, b) := ranges[k];
    assert ranges[k] in ranges && IsSentence(text, a, b, digit);
    forall i: nat | i < |text| ensures IsEnd(text, i, digit) <==> Closes(text, i, digit) {}
    var m: nat :| StopsAt(text, a, m, b, digit);
    hide IsEnd, Closes;
    forall i | a <= i < i + 1 < b && Closes(text, i, digit) ensures Closes(text, i + 1, digit) {
      assert IsEnd(text, i, digit) && i >= m;
    }
  }

  /** Every character that is not a separator lies in exactly one range. */
  lemma CoveredOnce(text: string, ranges: seq<(nat, nat)>, i: nat, digit: char -> bool) returns (k: nat)
    requires Tiles(text, ranges, |text|, digit) && i < |text| && !IsSeparator(text[i])
    ensures k < |ranges| && ranges[k].0 <= i < ranges[k].1
    ensures forall j :: 0 <= j < |ranges| && ranges[j].0 <= i < ranges[j].1 ==> j == k
  {
    assert Covered(ranges, i);
    k :| 0 <= k < |ranges| && ranges[k].0 <= i < ranges[k].1;
  }

  /** A sentence is determined by any of its characters that is not a separator. */
  lemma SentenceAround(text: string, a: nat, b: nat, c: nat, d: nat, i: nat, digit: char -> bool)
    requires IsSentence(text, a, b, digit) && IsSentence(text, c, d, digit)
    requires a <= i < b && c <= i < d && !IsSeparator(text[i])
    ensures a == c && b == d
  {
    var m: nat :| StopsAt(text, a, m, b, digit);
    var n: nat :| StopsAt(text, c, n, d, digit);
    assert !IsEnd(text, i, digit) && i < m && i < n;
    assert c > 0 ==> IsEnd(text, c - 1, digit);
    assert a > 0 ==> IsEnd(text, a - 1, digit);
    assert a == c;
    assert b < |text| ==> IsEnd(text, b - 1, digit) && !IsEnd(text, b, digit);
    assert d < |text| ==> IsEnd(text, d - 1, digit) && !IsEnd(text, d, digit);
    assert m == n by {
      assert m < b ==> IsEnd(text, m, digit);
      assert n < d ==> IsEnd(text, n, digit);
    }
  }

  /** The ranges are exactly the text's sentences. */
  lemma EverySentenceListed(text: string, ranges: seq<(nat, nat)>, a: nat, b: nat, digit: char -> bool)
    requires Tiles(text, ranges, |text|, digit)
    ensures IsSentence(text, a, b, digit) <==> (a, b) in ranges
  {
    if IsSentence(text, a, b, digit) {
      var i :| a <= i < b && !IsSeparator(text[i]);
      assert Covered(ranges, i);
      var r :| r in ranges && r.0 <= i < r.1;
      SentenceAround(text, a, b, r.0, r.1, i, digit);
    }
  }
}
