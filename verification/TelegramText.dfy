/** Splitting text under Telegram's UTF-16 message limit. */
module TelegramText {
  import opened Text

  /** UTF-16 code units of one character (section 2.1 of RFC 2781). */
  function CharUnits(c: char): (u: nat)
    ensures 1 <= u <= 2
  {
    if c as int > 0xFFFF then 2 else 1
  }

  /** `telegram_text_units`. */
  function Units(s: string): nat
  {
    if s == "" then 0 else Units(s[..|s| - 1]) + CharUnits(s[|s| - 1])
  }

  /** `str.isspace` on one character. */
  predicate IsSpace(c: char)
  {
    var n := c as int;
    0x09 <= n <= 0x0D || 0x1C <= n <= 0x20 || n == 0x85 || n == 0xA0 || n == 0x1680
    || 0x2000 <= n <= 0x200A || n == 0x2028 || n == 0x2029 || n == 0x202F || n == 0x205F || n == 0x3000
  }

  /** `_SPLIT_BOUNDARY_CHARS`: ASCII blanks and closers, and their CJK counterparts. */
  predicate IsBoundary(c: char)
  {
    IsSpace(c) || c in ".,;:!?)]}" || (c as int) in {0x3001, 0xFF0C, 0x3002, 0xFF01, 0xFF1F, 0xFF1B, 0xFF1A, 0xFF09, 0x3011, 0x300B}
  }

  lemma {:induction false} UnitsConcat(a: string, b: string)
    ensures Units(a + b) == Units(a) + Units(b)
    decreases |b|
  {
    if b == "" {
      assert a + b == a;
    } else {
      UnitsConcat(a, b[..|b| - 1]);
      assert (a + b)[..|a + b| - 1] == a + b[..|b| - 1];
    }
  }

  lemma {:induction false} UnitsAtLeastLength(s: string)
    ensures |s| <= Units(s) <= 2 * |s|
  {
    if s != "" { UnitsAtLeastLength(s[..|s| - 1]); }
  }

  /** One more character at the right end of a slice. */
  lemma UnitsStep(text: string, start: nat, end: nat)
    requires start <= end < |text|
    ensures Units(text[start..end + 1]) == Units(text[start..end]) + CharUnits(text[end])
  {
    var s := text[start..end + 1];
    assert s[..|s| - 1] == text[start..end];
  }

  /** The furthest end at or after `from` that still fits, growing one character at a time. */
  function Reach(text: string, start: nat, limit: int, from: nat): (e: nat)
    requires start <= from <= |text|
    ensures from <= e <= |text|
    decreases |text| - from
  {
    if from == |text| || Units(text[start..from + 1]) > limit then from else Reach(text, start, limit, from + 1)
  }

  /** The last end in `(start, end]` just after a boundary character, or `start`. */
  function LastBoundary(text: string, start: nat, end: nat): (b: nat)
    requires start <= end <= |text|
    ensures start <= b <= end && (b > start ==> IsBoundary(text[b - 1]))
    ensures forall i :: b <= i < end ==> !IsBoundary(text[i])
    decreases end - start
  {
    if end == start then start
    else if IsBoundary(text[end - 1]) then end
    else LastBoundary(text, start, end - 1)
  }

  /** `max(1, int(limit * 0.75))`. */
  function MinBoundaryUnits(limit: int): int { if 3 * limit / 4 > 1 then 3 * limit / 4 else 1 }

  /** Where the next chunk ends, said once. */
  function BestCut(text: string, start: nat, limit: int): (cut: nat)
    requires start < |text|
    ensures start < cut <= |text|
  {
    var hard := Reach(text, start, limit, start);
    var boundary := LastBoundary(text, start, hard);
    if hard == |text| then |text|
    else if boundary > start && Units(text[start..boundary]) >= MinBoundaryUnits(limit) then boundary
    else if hard == start then start + 1
    else hard
  }

  /** The chunks from `start` on. */
  function ChunksFrom(text: string, start: nat, limit: int): seq<string>
    requires start <= |text|
    decreases |text| - start
  {
    if start == |text| then []
    else var cut := BestCut(text, start, limit); [text[start..cut]] + ChunksFrom(text, cut, limit)
  }

  /** `split_telegram_text` as a function of its arguments. */
  function Split(text: string, limit: int): seq<string>
  {
    if Units(text) <= limit then [text] else if text == "" then [""] else ChunksFrom(text, 0, limit)
  }

  function Concat(chunks: seq<string>): string
  {
    if chunks == [] then "" else chunks[0] + Concat(chunks[1..])
  }

  // ---------------------------------------------------------------- the loops

  /** `_best_cut_index`. */
  method BestCutIndex(text: string, start: nat, limit: int) returns (cut: nat)
    requires start < |text|
    ensures cut == BestCut(text, start, limit)
  {
    var units, hardCut, boundaryCut, boundaryUnits := 0, start, start, 0;
    var minBoundaryUnits := MinBoundaryUnits(limit);
    var broke := false;
    assert text[start..start] == "";
    for index := start to |text|
      invariant hardCut == index && units == Units(text[start..index]) && !broke
      invariant Reach(text, start, limit, start) == Reach(text, start, limit, index)
      invariant boundaryCut == LastBoundary(text, start, index)
      invariant boundaryUnits == Units(text[start..boundaryCut])
    {
      var charUnits := CharUnits(text[index]);
      UnitsStep(text, start, index);
      if units + charUnits > limit {
        broke := true;
        break;
      }
      units := units + charUnits;
      hardCut := index + 1;
      if IsBoundary(text[index]) {
        boundaryCut, boundaryUnits := hardCut, units;
      }
    }
    if !broke { return |text|; }
    if boundaryCut > start && boundaryUnits >= minBoundaryUnits { return boundaryCut; }
    if hardCut == start { return start + 1; }
    return hardCut;
  }

  /** `split_telegram_text`. */
  method SplitTelegramText(text: string, limit: int) returns (chunks: seq<string>)
    ensures chunks == Split(text, limit)
  {
    if Units(text) <= limit { return [text]; }
    chunks := [];
    var start := 0;
    while start < |text|
      invariant start <= |text|
      invariant chunks + ChunksFrom(text, start, limit) == ChunksFrom(text, 0, limit)
      invariant (chunks == []) == (start == 0)
    {
      var cut := BestCutIndex(text, start, limit);
      chunks := chunks + [text[start..cut]];
      start := cut;
    }
    if chunks == [] { chunks := [""]; }
  }

  // ---------------------------------------------------------------- what splitting promises

  /** A character that stopped the scan does not fit. */
  lemma {:induction false} ReachStops(text: string, start: nat, limit: int, from: nat)
    requires start <= from <= |text|
    ensures var e := Reach(text, start, limit, from);
            && (e < |text| ==> Units(text[start..e + 1]) > limit)
            && (e > from ==> Units(text[start..e]) <= limit)
    decreases |text| - from
  {
    if from < |text| && Units(text[start..from + 1]) <= limit {
      ReachStops(text, start, limit, from + 1);
    }
  }

  /** A prefix of a slice has no more units than the slice. */
  lemma UnitsPrefix(text: string, start: nat, mid: nat, end: nat)
    requires start <= mid <= end <= |text|
    ensures Units(text[start..mid]) <= Units(text[start..end])
  {
    UnitsConcat(text[start..mid], text[mid..end]);
    assert text[start..mid] + text[mid..end] == text[start..end];
  }

  /**
   One cut: the chunk fits unless it is one character wider than the limit, and is nearly full unless
   it is the last.
   */
  lemma CutIsGood(text: string, start: nat, limit: int)
    requires start < |text|
    ensures var cut := BestCut(text, start, limit);
            && (Units(text[start..cut]) <= limit || (cut == start + 1 && Units(text[start..cut]) > limit))
            && (limit >= 2 ==> Units(text[start..cut]) <= limit)
            && (cut < |text| ==> Units(text[start..cut]) >= 3 * limit / 4)
  {
    var hard := Reach(text, start, limit, start);
    var cut := BestCut(text, start, limit);
    ReachStops(text, start, limit, start);
    assert text[start..start] == "";
    UnitsStep(text, start, start);
    if hard < |text| { UnitsStep(text, start, hard); }
    if hard > start && cut <= hard { UnitsPrefix(text, start, cut, hard); }
  }

  lemma {:induction false} ChunksFromGood(text: string, start: nat, limit: int)
    requires start <= |text|
    ensures var chunks := ChunksFrom(text, start, limit);
            && Concat(chunks) == text[start..]
            && (start < |text| ==> chunks != [])
            && (forall i :: 0 <= i < |chunks| ==>
                  && chunks[i] != ""
                  && (Units(chunks[i]) <= limit || |chunks[i]| == 1)
                  && (limit >= 2 ==> Units(chunks[i]) <= limit)
                  && (i < |chunks| - 1 ==> Units(chunks[i]) >= 3 * limit / 4))
    decreases |text| - start
  {
    hide Units, BestCut;
    if start < |text| {
      var cut := BestCut(text, start, limit);
      CutIsGood(text, start, limit);
      ChunksFromGood(text, cut, limit);
      assert ([text[start..cut]] + ChunksFrom(text, cut, limit))[1..] == ChunksFrom(text, cut, limit);
      assert text[start..cut] + text[cut..] == text[start..];
    }
  }

  /**
   The splitter is lossless; every chunk keeps within the limit once the limit admits any
   single character; and every chunk but the last carries at least three quarters of it.
   */
  lemma SplitGood(text: string, limit: int)
    ensures var chunks := Split(text, limit);
            && Concat(chunks) == text && chunks != []
            && (text != "" ==> forall c <- chunks :: c != "")
            && (limit >= 2 ==> forall c <- chunks :: Units(c) <= limit)
            && (forall c <- chunks :: Units(c) <= limit || |c| <= 1)
            && (forall i :: 0 <= i < |chunks| - 1 ==> Units(chunks[i]) >= 3 * limit / 4)
  {
    if Units(text) <= limit {
      assert [text][1..] == [];
      assert text + "" == text;
    } else if text == "" {
      assert [""][1..] == [];
    } else {
      ChunksFromGood(text, 0, limit);
      assert text[0..] == text;
    }
  }

  /** A boundary near the limit: at three quarters of it or later, and within it. */
  predicate NearBoundary(text: string, start: nat, limit: int, end: nat)
  {
    start < end <= |text| && IsBoundary(text[end - 1]) && 3 * limit / 4 <= Units(text[start..end]) <= limit
  }

  /**
   Where one cut falls: at the end of the text if the rest fits; else at the last boundary near the
   limit; and only without one at the hard limit.
   */
  lemma CutPrefersBoundary(text: string, start: nat, limit: int)
    requires start < |text|
    ensures var cut := BestCut(text, start, limit);
            && (Units(text[start..]) <= limit ==> cut == |text|)
            && (cut < |text| ==> forall end: nat :: NearBoundary(text, start, limit, end) ==> end <= cut)
            && (cut < |text| ==> NearBoundary(text, start, limit, cut) || Units(text[start..cut + 1]) > limit)
            && (cut < |text| ==>
                  forall end: nat :: NearBoundary(text, start, limit, end) ==> NearBoundary(text, start, limit, cut))
  {
    hide Units;
    var hard, cut := Reach(text, start, limit, start), BestCut(text, start, limit);
    ReachStops(text, start, limit, start);
    forall end | hard < end <= |text| ensures Units(text[start..end]) > limit { UnitsPrefix(text, start, hard + 1, end); }
    assert text[start..|text|] == text[start..];
    forall end | start < end <= |text| ensures 1 <= Units(text[start..end]) { UnitsAtLeastLength(text[start..end]); }
    forall end | start < end <= hard ensures Units(text[start..end]) <= limit { UnitsPrefix(text, start, end, hard); }
    var last := LastBoundary(text, start, hard);
    forall end: nat | NearBoundary(text, start, limit, end) ensures end <= last { assert IsBoundary(text[end - 1]); }
    forall end | start < end <= last ensures Units(text[start..end]) <= Units(text[start..last]) {
      UnitsPrefix(text, start, end, last);
    }
  }

  /** The same of a chunk and what is left to split. */
  ghost predicate PrefersBoundary(rest: string, chunk: string, limit: int)
  {
    && chunk != "" && chunk <= rest
    && (forall end: nat :: NearBoundary(rest, 0, limit, end) ==> end <= |chunk| && NearBoundary(rest, 0, limit, |chunk|))
    && (NearBoundary(rest, 0, limit, |chunk|) || (|chunk| < |rest| && Units(rest[..|chunk| + 1]) > limit))
  }

  lemma NearBoundaryHere(text: string, start: nat, limit: int, end: nat)
    requires start < end <= |text|
    ensures NearBoundary(text[start..], 0, limit, end - start) <==> NearBoundary(text, start, limit, end)
  {
    assert text[start..][0..end - start] == text[start..end];
  }

  lemma CutPrefers(text: string, start: nat, limit: int)
    requires start < |text| && BestCut(text, start, limit) < |text|
    ensures PrefersBoundary(text[start..], text[start..BestCut(text, start, limit)], limit)
  {
    hide Units, NearBoundary, BestCut;
    var rest, cut := text[start..], BestCut(text, start, limit);
    var chunk := text[start..cut];
    CutPrefersBoundary(text, start, limit);
    NearBoundaryHere(text, start, limit, cut);
    forall end: nat | NearBoundary(rest, 0, limit, end) ensures end <= |chunk| && NearBoundary(rest, 0, limit, |chunk|) {
      NearBoundaryIn(rest, 0, limit, end);
      NearBoundaryHere(text, start, limit, start + end);
    }
    assert rest[..|chunk| + 1] == text[start..cut + 1];
  }

  lemma NearBoundaryIn(text: string, start: nat, limit: int, end: nat)
    requires NearBoundary(text, start, limit, end)
    ensures start < end <= |text|
  {
  }

  /**
   A chunk that more text follows ends at the last boundary at or after three quarters of the limit;
   it ends elsewhere only where there is none, and then the next character would not fit.
   */
  lemma {:induction false} ChunksFromPrefer(text: string, start: nat, limit: int, i: nat)
    requires start <= |text| && i + 1 < |ChunksFrom(text, start, limit)|
    ensures var chunks := ChunksFrom(text, start, limit); PrefersBoundary(Concat(chunks[i..]), chunks[i], limit)
    decreases i
  {
    hide Units, BestCut, PrefersBoundary;
    var chunks, cut := ChunksFrom(text, start, limit), BestCut(text, start, limit);
    assert chunks[1..] == ChunksFrom(text, cut, limit);
    if i == 0 {
      ChunksFromGood(text, start, limit);
      assert chunks[0..] == chunks;
      CutPrefers(text, start, limit);
    } else {
      ChunksFromPrefer(text, cut, limit, i - 1);
      assert chunks[i..] == chunks[1..][i - 1..];
    }
  }

  lemma SplitPrefersBoundaries(text: string, limit: int, i: nat)
    requires i + 1 < |Split(text, limit)|
    ensures PrefersBoundary(Concat(Split(text, limit)[i..]), Split(text, limit)[i], limit)
  {
    ChunksFromPrefer(text, 0, limit, i);
  }

  /** Below two units the limit can be broken: an astral character alone needs two. */
  lemma LimitOneIsTooSmall()
    ensures var text := ['\U{1F600}', 'a']; exists c <- Split(text, 1) :: Units(c) > 1
  {
    var text := ['\U{1F600}', 'a'];
    UnitsStep(text, 0, 0);
    assert text[0..0] == "" && text[..1] == text[0..1];
    assert Units(text[0..1]) == 2;
    UnitsAtLeastLength(text);
    assert Reach(text, 0, 1, 0) == 0;
    assert BestCut(text, 0, 1) == 1;
    assert Split(text, 1)[0] == text[0..1];
  }
}
