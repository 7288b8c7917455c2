/** Reviewing a translation against the dictionary: which official form answers each mention. */
module Review {
  import opened Text
  import opened TermSpans
  import opened SentenceRanges
  import opened Mentions

  const MAX_ALIGNMENTS := 64

  /** A stretch `[start, end)` of the target text. */
  datatype Range = Range(start: nat, end: nat)

  predicate RangesOverlap(a: Range, b: Range) { a.start < b.end && b.start < a.end }

  // ---------------------------------------------------------------- alignments

  /** What a caller claims about a span: offsets and the text it should read there. */
  datatype Claim = Claim(start: int, end: int, text: string) | NotASpan

  datatype Entry = Entry(source: Claim, target: Option<Claim>) | NotAnEntry

  datatype Alignment = Alignment(source: Range, target: Option<Range>)

  /** `_coerce_alignment_span`. */
  function CoerceSpan(c: Claim, text: string): (r: Option<Range>)
    ensures r.Some? <==> c.Claim? && 0 <= c.start < c.end <= |text| && text[c.start..c.end] == c.text
    ensures r.Some? ==> r.value.start == c.start && r.value.end == c.end
  {
    if c.Claim? && 0 <= c.start < c.end <= |text|
        && text[c.start..c.end] == c.text then Some(Range(c.start, c.end)) else None
  }

  /** One entry, on its own. */
  function CoerceEntry(e: Entry, source: string, target: string): (r: Option<Alignment>)
  {
    if e.NotAnEntry? || CoerceSpan(e.source, source).None? then None
    else if e.target.None? then Some(Alignment(CoerceSpan(e.source, source).value, None))
    else if CoerceSpan(e.target.value, target).None? then None
    else Some(Alignment(CoerceSpan(e.source, source).value, CoerceSpan(e.target.value, target)))
  }

  /** A boundary strictly inside a mention. */
  predicate Cuts(at: nat, m: Span) { m.start < at < m.end }

  predicate CutsNone(a: Alignment, mentions: seq<Span>)
  {
    forall m <- mentions :: !Cuts(a.source.start, m) && !Cuts(a.source.end, m)
  }

  /** Source spans in order and apart, and so are those target spans that are given. */
  ghost predicate InOrder(alignments: seq<Alignment>)
  {
    && (forall a <- alignments :: a.source.start < a.source.end && (a.target.Some? ==> a.target.value.start < a.target.value.end))
    && (forall i, j :: 0 <= i < j < |alignments| ==> alignments[i].source.end <= alignments[j].source.start)
    && (forall i, j :: 0 <= i < j < |alignments| && alignments[i].target.Some? && alignments[j].target.Some?
          ==> alignments[i].target.value.end <= alignments[j].target.value.start)
  }

  /** These are the entries' alignments, and acceptable together. */
  ghost predicate Accepted(items: seq<Entry>, alignments: seq<Alignment>, source: string, target: string,
          mentions: seq<Span>)
  {
    && |items| == |alignments| <= MAX_ALIGNMENTS
    && (forall k :: 0 <= k < |items| ==> CoerceEntry(items[k], source, target) == Some(alignments[k]))
    && InOrder(alignments) && forall a <- alignments :: CutsNone(a, mentions)
  }

  /** `_coerce_alignments`: it accepts exactly what is well formed, in order, apart, and cuts no mention. */
  method CoerceAlignments(items: seq<Entry>, source: string, target: string, mentions: seq<Span>)
          returns (r: Option<seq<Alignment>>)
    ensures r.Some? ==> Accepted(items, r.value, source, target, mentions)
    ensures r.None? ==> forall alignments :: !Accepted(items, alignments, source, target, mentions)
  {
    hide CoerceEntry, OutOfPlace, CutsNone, InOrder;
    if |items| > MAX_ALIGNMENTS { return None; }
    var alignments: seq<Alignment>, sourceEnd: int, targetEnd: int := [], -1, -1;
    assert InOrder([]) by { NothingOutOfOrder(); }
    for n := 0 to |items|
      invariant Accepted(items[..n], alignments, source, target, mentions)
      invariant forall a <- alignments :: a.source.end <= sourceEnd && (a.target.Some? ==> a.target.value.end <= targetEnd)
      invariant sourceEnd == -1 || exists k :: 0 <= k < n && alignments[k].source.end == sourceEnd
      invariant targetEnd == -1 || exists k :: 0 <= k < n && alignments[k].target.Some? && alignments[k].target.value.end == targetEnd
    {
      var e := CoerceEntry(items[n], source, target);
      forall all | Accepted(items, all, source, target, mentions)
        ensures e.Some? && !OutOfPlace(e.value, sourceEnd, targetEnd, mentions)
      {
        SameAlignments(items[..n], all[..n], alignments, source, target);
        InPlace(all, n, sourceEnd, targetEnd, mentions);
      }
      if e.None? { return None; }
      var a := e.value;
      EntrySpans(items[n], source, target);
      if OutOfPlace(a, sourceEnd, targetEnd, mentions) { return None; }
      AcceptedGrows(items, n, alignments, a, source, target, mentions, sourceEnd, targetEnd);
      assert a.source.end >= sourceEnd && (a.target.Some? ==> a.target.value.end >= targetEnd);
      ghost var before := alignments;
      alignments := alignments + [a];
      assert forall k :: 0 <= k < n ==> alignments[k] == before[k];
      assert alignments[n] == a;
      sourceEnd := a.source.end;
      if a.target.Some? { targetEnd := a.target.value.end; }
    }
    assert items[..|items|] == items;
    r := Some(alignments);
  }

  lemma NothingOutOfOrder()
    ensures InOrder([])
  {
  }

  /** The tests one alignment must pass after those before it. */
  predicate OutOfPlace(a: Alignment, sourceEnd: int, targetEnd: int, mentions: seq<Span>)
  {
    a.source.start < sourceEnd || (a.target.Some? && a.target.value.start < targetEnd) || !CutsNone(a, mentions)
  }

  lemma InPlace(all: seq<Alignment>, n: nat, sourceEnd: int, targetEnd: int, mentions: seq<Span>)
    requires n < |all| && InOrder(all) && forall a <- all :: CutsNone(a, mentions)
    requires sourceEnd == -1 || exists k :: 0 <= k < n && all[..n][k].source.end == sourceEnd
    requires targetEnd == -1 || exists k :: 0 <= k < n && all[..n][k].target.Some? && all[..n][k].target.value.end == targetEnd
    ensures !OutOfPlace(all[n], sourceEnd, targetEnd, mentions)
  {
    assert all[n] in all;
    assert forall k :: 0 <= k < n ==> all[..n][k] == all[k];
  }

  lemma AcceptedGrows(items: seq<Entry>, n: nat, alignments: seq<Alignment>, a: Alignment, source: string,
          target: string,
                      mentions: seq<Span>, sourceEnd: int, targetEnd: int)
    requires n < |items| <= MAX_ALIGNMENTS && Accepted(items[..n], alignments, source, target, mentions)
    requires CoerceEntry(items[n], source, target) == Some(a) && !OutOfPlace(a, sourceEnd, targetEnd, mentions)
    requires a.source.start < a.source.end && (a.target.Some? ==> a.target.value.start < a.target.value.end)
    requires forall x <- alignments :: x.source.end <= sourceEnd && (x.target.Some? ==> x.target.value.end <= targetEnd)
    ensures Accepted(items[..n + 1], alignments + [a], source, target, mentions)
    ensures a.source.end >= sourceEnd && (a.target.Some? ==> a.target.value.end >= targetEnd)
  {
    hide CoerceEntry, CutsNone;
    var longer := alignments + [a];
    forall i, j | 0 <= i < j < |longer|
      ensures longer[i].source.end <= longer[j].source.start
      ensures longer[i].target.Some? && longer[j].target.Some?
          ==> longer[i].target.value.end <= longer[j].target.value.start
    {
      if j == |alignments| { assert longer[i] in alignments; }
    }
    assert forall x <- longer :: x in alignments || x == a;
  }

  lemma EntrySpans(e: Entry, source: string, target: string)
    ensures var r := CoerceEntry(e, source, target);
            r.Some? ==> r.value.source.start < r.value.source.end && (r.value.target.Some? ==> r.value.target.value.start < r.value.target.value.end)
  {
  }

  lemma SameAlignments(items: seq<Entry>, a: seq<Alignment>, b: seq<Alignment>, source: string, target: string)
    requires |items| == |a| == |b|
    requires forall k :: 0 <= k < |items| ==> CoerceEntry(items[k], source, target) == Some(a[k])
    requires forall k :: 0 <= k < |items| ==> CoerceEntry(items[k], source, target) == Some(b[k])
    ensures a == b
  {
    hide CoerceEntry;
    forall k | 0 <= k < |items| ensures a[k] == b[k]
    {
      assert Some(a[k]) == CoerceEntry(items[k], source, target) == Some(b[k]);
    }
  }

  predicate Holds(a: Alignment, m: Span) { a.source.start <= m.start && m.end <= a.source.end }

  /** The alignment's spans read what the entry claims of them. */
  ghost predicate Reads(e: Entry, a: Alignment, source: string, target: string)
  {
    && e.Entry? && e.source.Claim? && a.source.start < a.source.end <= |source|
    && source[a.source.start..a.source.end] == e.source.text
    && (a.target.Some? <==> e.target.Some?)
    && (a.target.Some? ==>
          && e.target.value.Claim? && a.target.value.start < a.target.value.end <= |target|
          && target[a.target.value.start..a.target.value.end] == e.target.value.text)
  }

  /**
   What acceptance gives a caller: every span is a non-empty piece of its text and reads as claimed,
   no two share a character, and a mention lies wholly in one aligned source span or in none.
   */
  lemma AcceptedSpansRead(items: seq<Entry>, alignments: seq<Alignment>, source: string, target: string,
          mentions: seq<Span>)
    requires Accepted(items, alignments, source, target, mentions)
    ensures |items| == |alignments| && forall k :: 0 <= k < |items| ==> Reads(items[k], alignments[k], source, target)
    ensures forall i, j :: 0 <= i < j < |alignments| ==>
              && !RangesOverlap(alignments[i].source, alignments[j].source)
              && (alignments[i].target.Some? && alignments[j].target.Some? ==>
                    !RangesOverlap(alignments[i].target.value, alignments[j].target.value))
    ensures forall m <- mentions, a <- alignments ::
              m.start < m.end ==> Holds(a, m) || m.end <= a.source.start || a.source.end <= m.start
    ensures forall m <- mentions, i, j :: 0 <= i < j < |alignments| && m.start < m.end ==>
              !(Holds(alignments[i], m) && Holds(alignments[j], m))
  {
    hide CoerceEntry;
    forall k | 0 <= k < |items| ensures Reads(items[k], alignments[k], source, target) {
      EntryReads(items[k], source, target);
    }
    forall m <- mentions, a <- alignments | m.start < m.end
      ensures Holds(a, m) || m.end <= a.source.start || a.source.end <= m.start
    {
      assert a.source.start < a.source.end && CutsNone(a, mentions);
    }
  }

  lemma EntryReads(e: Entry, source: string, target: string)
    ensures CoerceEntry(e, source, target).Some? ==> Reads(e, CoerceEntry(e, source, target).value, source, target)
  {
  }

  /** `_mapped_target_range`. */
  function MappedRange(m: Span, alignments: seq<Alignment>): Option<Range>
  {
    if alignments == [] then None
    else if Holds(alignments[0], m) then alignments[0].target
    else MappedRange(m, alignments[1..])
  }

  /** A mention is mapped by the one alignment that holds it, if any. */
  lemma {:induction false} MappedByHolder(m: Span, alignments: seq<Alignment>, k: nat)
    requires InOrder(alignments) && m.start < m.end && k < |alignments| && Holds(alignments[k], m)
    ensures MappedRange(m, alignments) == alignments[k].target
  {
    if k > 0 {
      assert alignments[0].source.end <= alignments[k].source.start;
      forall a <- alignments[1..] ensures a in alignments {}
      MappedByHolder(m, alignments[1..], k - 1);
    }
  }

  /** Later mentions never map to earlier target text. */
  lemma {:induction false} MappingsInOrder(m: Span, n: Span, alignments: seq<Alignment>)
    requires InOrder(alignments) && m.start < m.end <= n.start < n.end
    requires MappedRange(m, alignments).Some? && MappedRange(n, alignments).Some?
    ensures var a, b := MappedRange(m, alignments).value, MappedRange(n, alignments).value;
            a == b || a.end <= b.start
  {
    forall a <- alignments[1..] ensures a in alignments {}
    if Holds(alignments[0], m) {
      if !Holds(alignments[0], n) { MappedFromLater(n, alignments); }
    } else {
      MappedFromLater(m, alignments);
      var k :| 0 < k < |alignments| && Holds(alignments[k], m);
      assert alignments[0].source.end <= alignments[k].source.start;
      MappingsInOrder(m, n, alignments[1..]);
    }
  }

  lemma {:induction false} MappedFromLater(m: Span, alignments: seq<Alignment>)
    requires alignments != [] && MappedRange(m, alignments).Some? && !Holds(alignments[0], m)
    ensures exists k :: 0 < k < |alignments| && Holds(alignments[k], m) && alignments[k].target == MappedRange(m, alignments)
  {
    if Holds(alignments[1], m) {
    } else {
      MappedFromLater(m, alignments[1..]);
      var k :| 0 < k < |alignments[1..]| && Holds(alignments[1..][k], m)
          && alignments[1..][k].target == MappedRange(m, alignments[1..]);
      assert alignments[k + 1] == alignments[1..][k];
    }
  }

  // ---------------------------------------------------------------- judging one mention

  datatype Candidate = Candidate(zh: string, en: string, id: string) {
    /** `_official_form`. */
    function Form(toEn: bool): string { if toEn then en else zh }
  }

  datatype Choice = NotATerm | OfficialPair(candidateId: string)

  datatype Verdict = Verified | Conflict | NeedsReview | NotEvaluated

  datatype Finding = Finding(id: string, verdict: Verdict, source: Range, target: Option<Range>, candidates: seq<Candidate>)

  predicate Available(r: Range, used: set<Range>) { forall u <- used :: !RangesOverlap(r, u) }

  /** `form` is spelt at `r` inside `region`, glued to no letter there, and the text is not claimed yet. */
  predicate Free(target: string, region: Range, form: string, used: set<Range>, r: Range)
    requires region.start <= region.end <= |target|
  {
    && region.start <= r.start && r.end == r.start + |form| <= region.end
    && IsOccurrence(target[region.start..region.end], form, r.start - region.start)
    && Available(r, used)
  }

  ghost predicate Appears(target: string, region: Range, form: string, used: set<Range>)
    requires region.start <= region.end <= |target|
  {
    exists r :: Free(target, region, form, used, r)
  }

  /** The leftmost free place of a form. */
  ghost predicate FirstFree(target: string, region: Range, form: string, used: set<Range>, r: Range)
    requires region.start <= region.end <= |target|
  {
    Free(target, region, form, used, r) && forall o :: Free(target, region, form, used, o) ==> r.start <= o.start
  }

  /** The form is spelt somewhere that is not wholly inside the region. */
  ghost predicate Elsewhere(target: string, region: Range, form: string)
  {
    exists at: nat :: OutsideAt(target, region, form, at)
  }

  ghost predicate OutsideAt(target: string, region: Range, form: string, at: nat)
  {
    IsOccurrence(target, form, at) && (at < region.start || at + |form| > region.end)
  }

  function PlaceAt(region: Range, form: string, at: nat): Range
  {
    Range(region.start + at, region.start + at + |form|)
  }

  ghost predicate FoundIn(region: Range, form: string, found: seq<nat>, r: Range)
  {
    r.start >= region.start && r.start - region.start in found && r == PlaceAt(region, form, r.start - region.start)
  }

  lemma FreeIsFound(target: string, region: Range, form: string, used: set<Range>, found: seq<nat>)
    requires region.start <= region.end <= |target|
    requires Occurrences(target[region.start..region.end], form, region.end - region.start + 1, found)
    ensures forall r :: Free(target, region, form, used, r) <==> FoundIn(region, form, found, r) && Available(r, used)
  {
    var inside := target[region.start..region.end];
    forall r ensures Free(target, region, form, used, r) <==> FoundIn(region, form, found, r) && Available(r, used)
    {
      if r.start >= region.start {
        assert r.start - region.start in found
            <==> r.start - region.start <= |inside| && IsOccurrence(inside, form, r.start - region.start);
      }
    }
  }

  lemma NothingFound(region: Range, form: string)
    ensures forall r :: !FoundIn(region, form, [], r)
  {
  }

  lemma FoundOneMore(region: Range, form: string, found: seq<nat>, at: nat)
    ensures forall r :: FoundIn(region, form, found + [at], r) <==> FoundIn(region, form, found, r) || r == PlaceAt(region, form, at)
  {
  }

  /** The free places of one form, leftmost first. */
  method FreePlaces(target: string, region: Range, form: string, used: set<Range>) returns (places: seq<Range>)
    requires region.start <= region.end <= |target|
    ensures forall r :: r in places <==> Free(target, region, form, used, r)
    ensures forall i, j :: 0 <= i < j < |places| ==> places[i].start < places[j].start
  {
    hide Free, IsOccurrence, Available, FoundIn;
    var found := FindOccurrences(target[region.start..region.end], form);
    FreeIsFound(target, region, form, used, found);
    NothingFound(region, form);
    places := [];
    for k := 0 to |found|
      invariant forall r :: r in places <==> FoundIn(region, form, found[..k], r) && Available(r, used)
      invariant forall i, j :: 0 <= i < j < |places| ==> places[i].start < places[j].start
      invariant forall r <- places :: k < |found| ==> r.start - region.start < found[k]
    {
      var absolute := PlaceAt(region, form, found[k]);
      assert found[..k + 1] == found[..k] + [found[k]];
      FoundOneMore(region, form, found[..k], found[k]);
      if Available(absolute, used) { places := places + [absolute]; }
    }
    assert found[..|found|] == found;
  }

  /** `_elsewhere_has_form`. */
  method FoundElsewhere(target: string, region: Range, forms: seq<string>) returns (r: bool)
    ensures r <==> exists f <- forms :: Elsewhere(target, region, f)
  {
    for n := 0 to |forms|
      invariant forall f <- forms[..n] :: !Elsewhere(target, region, f)
    {
      var found := FindOccurrences(target, forms[n]);
      for k := 0 to |found|
        invariant forall at <- found[..k] :: !OutsideAt(target, region, forms[n], at)
      {
        assert found[k] in found;
        if found[k] < region.start || found[k] + |forms[n]| > region.end {
          assert OutsideAt(target, region, forms[n], found[k]) && forms[n] in forms;
          return true;
        }
      }
      assert found[..|found|] == found;
    }
    assert forms[..|forms|] == forms;
    r := false;
  }

  /** The first candidate with an id. */
  function Selected(candidates: seq<Candidate>, id: string): (r: Option<Candidate>)
    ensures r.Some? ==> r.value in candidates && r.value.id == id
    ensures r.None? ==> forall c <- candidates :: c.id != id
  {
    if candidates == [] then None
    else if candidates[0].id == id then Some(candidates[0])
    else Selected(candidates[1..], id)
  }

  /** `dict.fromkeys` over the candidates' forms. */
  function Forms(candidates: seq<Candidate>, toEn: bool): (r: seq<string>)
    ensures forall f :: f in r <==> exists c <- candidates :: f == if toEn then c.en else c.zh
    ensures forall i, j :: 0 <= i < j < |r| ==> r[i] != r[j]
  {
    if candidates == [] then []
    else
      var n := |candidates| - 1;
      var before, f := Forms(candidates[..n], toEn), candidates[n].Form(toEn);
      assert candidates == candidates[..n] + [candidates[n]];
      if f in before then before else before + [f]
  }

  /** The forms a resolution leaves in question: the chosen one, or all. */
  function Questioned(candidates: seq<Candidate>, toEn: bool, choice: Option<Choice>): seq<string>
  {
    match choice
    case Some(OfficialPair(id)) =>
      var c := Selected(candidates, id);
      if c.None? then [] else [c.value.Form(toEn)]
    case _ => Forms(candidates, toEn)
  }

  /**
   The verdict on forms looked for in a region: the leftmost free place of the first one appearing is claimed;
   two forms appearing need a human; none appearing depends on whether one is spelt elsewhere, and
   then on whether the user had chosen it.
   */
  ghost predicate Settled(
    target: string, region: Range, forms: seq<string>, used: set<Range>, chosen: bool, verdict: Verdict,
        hit: Option<Range>)
    requires region.start <= region.end <= |target|
  {
    if exists f <- forms :: Appears(target, region, f, used) then
      && hit.Some? && (exists k: nat :: FirstAppearing(target, region, forms, used, k) && FirstFree(target, region, forms[k], used, hit.value))
      && verdict == if TwoAppear(target, region, forms, used) then NeedsReview else Verified
    else
      && hit == None
      && verdict == if exists f <- forms :: Elsewhere(target, region, f) then NotEvaluated
                    else if chosen then Conflict else NeedsReview
  }

  /** The first form, in the candidates' order, that appears. */
  ghost predicate FirstAppearing(target: string, region: Range, forms: seq<string>, used: set<Range>, k: nat)
    requires region.start <= region.end <= |target|
  {
    k < |forms| && Appears(target, region, forms[k], used)
        && forall i :: 0 <= i < k ==> !Appears(target, region, forms[i], used)
  }

  ghost predicate TwoAppear(target: string, region: Range, forms: seq<string>, used: set<Range>)
    requires region.start <= region.end <= |target|
  {
    exists f, g :: f in forms && g in forms && f != g && Appears(target, region, f, used) && Appears(target, region, g, used)
  }

  /** The verdict on a mention, given the target range it maps to and what earlier mentions claimed. */
  ghost predicate Judged(
    target: string, toEn: bool, candidates: seq<Candidate>, region: Option<Range>, used: set<Range>,
    choice: Option<Choice>, verdict: Verdict, hit: Option<Range>)
    requires region.Some? ==> region.value.start <= region.value.end <= |target|
  {
    if choice == Some(NotATerm) || region.None? then verdict == NotEvaluated && hit == None
    else Settled(target, region.value, Questioned(candidates, toEn, choice), used, choice.Some?, verdict, hit)
  }

  /** The free places of every form: `in_region`, and the forms that have one: `appearing`. */
  method CollectPlaces(target: string, region: Range, forms: seq<string>, used: set<Range>)
      returns (inRegion: map<string, seq<Range>>, appearing: seq<string>)
    requires region.start <= region.end <= |target|
    requires forall i, j :: 0 <= i < j < |forms| ==> forms[i] != forms[j]
    ensures Collected(target, region, forms, used, inRegion)
    ensures forall f :: f in appearing <==> f in forms && Appears(target, region, f, used)
    ensures forall i, j :: 0 <= i < j < |appearing| ==> appearing[i] != appearing[j]
    ensures appearing != [] ==> exists k: nat :: FirstAppearing(target, region, forms, used, k) && forms[k] == appearing[0]
  {
    hide Free, Appears, PlacesOf;
    inRegion, appearing := map[], [];
    for n := 0 to |forms|
      invariant Collected(target, region, forms[..n], used, inRegion)
      invariant forall f :: f in appearing <==> f in forms[..n] && Appears(target, region, f, used)
      invariant forall i, j :: 0 <= i < j < |appearing| ==> appearing[i] != appearing[j]
      invariant appearing != [] ==> exists k: nat :: FirstAppearing(target, region, forms, used, k) && forms[k] == appearing[0]
    {
      var form := forms[n];
      var local := FreePlaces(target, region, form, used);
      PlacesFound(target, region, form, used, local);
      if local != [] && appearing == [] {
        assert forall i :: 0 <= i < n ==> forms[i] in forms[..n];
        assert FirstAppearing(target, region, forms, used, n);
      }
      inRegion := inRegion[form := local];
      assert forms[..n + 1] == forms[..n] + [form] && form !in forms[..n];
      if local != [] { appearing := appearing + [form]; }
    }
    assert forms[..|forms|] == forms;
  }

  lemma PlacesFound(target: string, region: Range, form: string, used: set<Range>, local: seq<Range>)
    requires region.start <= region.end <= |target|
    requires forall r :: r in local <==> Free(target, region, form, used, r)
    requires forall i, j :: 0 <= i < j < |local| ==> local[i].start < local[j].start
    ensures PlacesOf(target, region, form, used, local) && (local != [] <==> Appears(target, region, form, used))
  {
    hide Free;
    assert local != [] ==> local[0] in local;
  }

  ghost predicate Collected(target: string, region: Range, forms: seq<string>, used: set<Range>,
          inRegion: map<string, seq<Range>>)
    requires region.start <= region.end <= |target|
  {
    && (forall f :: f in inRegion <==> f in forms)
    && (forall f <- inRegion.Keys :: PlacesOf(target, region, f, used, inRegion[f]))
  }

  ghost predicate PlacesOf(target: string, region: Range, form: string, used: set<Range>, places: seq<Range>)
    requires region.start <= region.end <= |target|
  {
    && (forall r :: r in places <==> Free(target, region, form, used, r))
    && (forall i, j :: 0 <= i < j < |places| ==> places[i].start < places[j].start)
  }

  /** `_next_unused`. */
  method NextUnused(places: seq<Range>, used: set<Range>) returns (r: Option<Range>)
    ensures r.None? ==> forall p <- places :: !Available(p, used)
    ensures r.Some? ==> exists k :: 0 <= k < |places| && places[k] == r.value && Available(r.value, used)
                                    && forall i :: 0 <= i < k ==> !Available(places[i], used)
  {
    for n := 0 to |places|
      invariant forall i :: 0 <= i < n ==> !Available(places[i], used)
    {
      if Available(places[n], used) { return Some(places[n]); }
    }
    r := None;
  }

  /** The next unused place of a form is its first free one. */
  lemma NextIsFirst(target: string, region: Range, form: string, used: set<Range>, places: seq<Range>)
    requires region.start <= region.end <= |target| && PlacesOf(target, region, form, used, places)
    ensures forall p <- places :: Available(p, used)
    ensures places == [] <==> !Appears(target, region, form, used)
    ensures places != [] ==> places[0] in places && FirstFree(target, region, form, used, places[0])
  {
    if places != [] {
      assert places[0] in places;
      forall o | Free(target, region, form, used, o) ensures places[0].start <= o.start
      {
        assert o in places;
      }
    } else {
      forall o ensures !Free(target, region, form, used, o) { assert o !in places; }
    }
  }

  lemma FirstOfAll(target: string, region: Range, forms: seq<string>, used: set<Range>)
    requires region.start <= region.end <= |target| && forms != [] && Appears(target, region, forms[0], used)
    ensures FirstAppearing(target, region, forms, used, 0)
  {
  }

  /** The target text already claimed: `used_target`. */
  class Claims {
    var used: set<Range>
    constructor () ensures used == {} { used := {}; }

    /** The second half of `_judge_mention_v2`: the forms are known, and so is the region to find them in. */
    method Settle(target: string, region: Range, forms: seq<string>, chosen: bool)
            returns (verdict: Verdict, hit: Option<Range>)
      requires region.start <= region.end <= |target|
      requires (forall i, j :: 0 <= i < j < |forms| ==> forms[i] != forms[j]) && (chosen ==> |forms| == 1)
      modifies this
      ensures Settled(target, region, forms, old(used), chosen, verdict, hit)
      ensures used == old(used) + (if hit.Some? then {hit.value} else {})
    {
      hide Free, FirstFree, FirstAppearing, Appears, Elsewhere, Available, PlacesOf;
      var inRegion, appearing := CollectPlaces(target, region, forms, used);
      ghost var before := used;
      forall f <- forms { NextIsFirst(target, region, f, used, inRegion[f]); }
      if chosen {
        hit := NextUnused(inRegion[forms[0]], used);
        if hit.Some? {
          FirstOfAll(target, region, forms, before);
          used := used + {hit.value};
          return Verified, hit;
        }
        assert !Appears(target, region, forms[0], before);
        var elsewhere := FoundElsewhere(target, region, forms);
        // Only the chosen form was searched, so the code's look for another form in the region finds none.
        return if elsewhere then NotEvaluated else Conflict, None;
      }
      if appearing != [] {
        assert appearing[0] in appearing && appearing[0] in forms;
        hit := NextUnused(inRegion[appearing[0]], used);
        used := used + {hit.value};
        if |appearing| > 1 {
          assert appearing[1] in appearing;
          return NeedsReview, hit;
        }
        assert !TwoAppear(target, region, forms, before);
        return Verified, hit;
      }
      var elsewhere := FoundElsewhere(target, region, forms);
      return if elsewhere then NotEvaluated else NeedsReview, None;
    }

    /** `_judge_mention_v2`, for a mention and what the user chose for it; it raises on an unknown candidate. */
    method Judge(target: string, toEn: bool, m: Span, candidates: seq<Candidate>, region: Option<Range>,
            choice: Option<Choice>)
        returns (r: Option<Finding>)
      requires region.Some? ==> region.value.start <= region.value.end <= |target|
      modifies this
      ensures r.None? <==> choice.Some? && choice.value.OfficialPair? && Selected(candidates, choice.value.candidateId).None?
      ensures r.None? ==> used == old(used)
      ensures r.Some? ==>
                && r.value.id == MentionId(m.start, m.end, m.source) && r.value.source == Range(m.start, m.end)
                && r.value.candidates == candidates
                && Judged(target, toEn, candidates, region, old(used), choice, r.value.verdict, r.value.target)
                && used == old(used) + (if r.value.target.Some? then {r.value.target.value} else {})
    {
      hide Settled, MentionId;
      var finding := Finding(MentionId(m.start, m.end, m.source), NotEvaluated, Range(m.start, m.end), None,
          candidates);
      if choice == Some(NotATerm) { return Some(finding); }
      var selected: Option<Candidate> := None;
      if choice.Some? {
        selected := Selected(candidates, choice.value.candidateId);
        if selected.None? { return None; }
      }
      var forms := if selected.Some? then [selected.value.Form(toEn)] else Forms(candidates, toEn);
      if region.None? { return Some(finding); }
      var verdict, hit := Settle(target, region.value, forms, selected.Some?);
      return Some(finding.(verdict := verdict, target := hit));
    }
  }

  // ---------------------------------------------------------------- what a verdict is worth

  /** A claimed span lies in the mapped range, spells one of the questioned forms, and was nobody's before. */
  lemma HitIsSound(target: string, toEn: bool, candidates: seq<Candidate>, region: Option<Range>, used: set<Range>,
                   choice: Option<Choice>, verdict: Verdict, hit: Option<Range>)
    requires region.Some? ==> region.value.start <= region.value.end <= |target|
    requires Judged(target, toEn, candidates, region, used, choice, verdict, hit)
    ensures verdict == Verified ==> hit.Some?
    ensures hit.Some? ==>
              && region.Some? && region.value.start <= hit.value.start < hit.value.end <= region.value.end
              && Available(hit.value, used)
              && exists c <- candidates :: target[hit.value.start..hit.value.end] == if toEn then c.en else c.zh
    ensures hit.Some? && choice.Some? ==>
              && choice.value.OfficialPair? && Selected(candidates, choice.value.candidateId).Some?
              && var c := Selected(candidates, choice.value.candidateId).value;
                 target[hit.value.start..hit.value.end] == if toEn then c.en else c.zh
  {
    hide Elsewhere, TwoAppear, Available, Appears, Free, Questioned, InQuestion;
    if hit.Some? {
      var forms := Questioned(candidates, toEn, choice);
      var k: nat :| FirstAppearing(target, region.value, forms, used, k)
          && FirstFree(target, region.value, forms[k], used, hit.value);
      QuestionedIs(candidates, toEn, choice);
      assert forms[k] in forms;
      hide FirstAppearing, FirstFree;
      FreeSpells(target, region.value, forms[k], used, hit.value);
      AskedOf(candidates, toEn, choice, forms[k]);
    }
  }

  lemma AskedOf(candidates: seq<Candidate>, toEn: bool, choice: Option<Choice>, form: string)
    requires InQuestion(candidates, toEn, choice, form) && choice != Some(NotATerm)
    ensures exists c <- candidates :: form == if toEn then c.en else c.zh
    ensures choice.Some? ==>
              && Selected(candidates, choice.value.candidateId).Some?
              && var c := Selected(candidates, choice.value.candidateId).value; form == if toEn then c.en else c.zh
  {
  }

  /** A form is in question: the chosen candidate's, or with no choice any candidate's. */
  ghost predicate InQuestion(candidates: seq<Candidate>, toEn: bool, choice: Option<Choice>, form: string)
  {
    match choice
    case Some(OfficialPair(id)) =>
      Selected(candidates, id).Some? && var c := Selected(candidates, id).value; form == if toEn then c.en else c.zh
    case _ => exists c <- candidates :: form == if toEn then c.en else c.zh
  }

  lemma QuestionedIs(candidates: seq<Candidate>, toEn: bool, choice: Option<Choice>)
    ensures forall f :: f in Questioned(candidates, toEn, choice) <==> InQuestion(candidates, toEn, choice, f)
  {
  }

  /**
   When each verdict is given.  A mention that is not a term, or has no region, is not evaluated.
   Otherwise it is verified when exactly one form in question appears free in the region; when none
   does, it is not evaluated if one is spelt elsewhere, and else a conflict with the user's choice or
   for a human; two forms appearing are for a human too.
   */
  lemma VerdictMeans(target: string, toEn: bool, candidates: seq<Candidate>, region: Option<Range>, used: set<Range>,
                     choice: Option<Choice>, verdict: Verdict, hit: Option<Range>)
    requires region.Some? ==> region.value.start <= region.value.end <= |target|
    requires Judged(target, toEn, candidates, region, used, choice, verdict, hit)
    ensures choice == Some(NotATerm) || region.None? ==> verdict == NotEvaluated && hit.None?
    ensures choice != Some(NotATerm) && region.Some? ==>
              var one := exists f :: InQuestion(candidates, toEn, choice, f) && Appears(target, region.value, f, used);
              var two := exists f, g :: f != g && InQuestion(candidates, toEn, choice, f) && InQuestion(candidates, toEn, choice, g)
                                        && Appears(target, region.value, f, used)
                                            && Appears(target, region.value, g, used);
              var away := exists f :: InQuestion(candidates, toEn, choice, f) && Elsewhere(target, region.value, f);
              && (hit.Some? <==> one) && (verdict == Verified <==> one && !two)
              && (verdict == NotEvaluated <==> !one && away) && (verdict == Conflict <==> !one && !away && choice.Some?)
              && (verdict == NeedsReview <==> two || (!one && !away && choice.None?))
  {
    hide Appears, Elsewhere, FirstFree, FirstAppearing, Questioned, InQuestion;
    QuestionedIs(candidates, toEn, choice);
    if choice != Some(NotATerm) && region.Some? {
      TwoMeansOne(target, region.value, Questioned(candidates, toEn, choice), used);
    }
  }

  lemma TwoMeansOne(target: string, region: Range, forms: seq<string>, used: set<Range>)
    requires region.start <= region.end <= |target|
    ensures TwoAppear(target, region, forms, used) ==> exists f <- forms :: Appears(target, region, f, used)
  {
    hide Appears;
  }

  lemma FreeSpells(target: string, region: Range, form: string, used: set<Range>, r: Range)
    requires region.start <= region.end <= |target| && Free(target, region, form, used, r)
    ensures r.start < r.end <= |target| && target[r.start..r.end] == form && Available(r, used)
    ensures region.start <= r.start && r.end <= region.end
  {
    var inside, at := target[region.start..region.end], r.start - region.start;
    forall i | 0 <= i < |form| ensures target[r.start + i] == form[i]
    {
      assert inside[at..at + |form|][i] == inside[at + i] == target[region.start + (at + i)];
    }
    assert target[r.start..r.end] == form;
  }

  // ---------------------------------------------------------------- the whole review

  const MAX_SIDE_SCALARS := 2000

  datatype Resolution = Resolution(mentionId: string, choice: Choice)

  /** What a list of resolutions was made for. */
  datatype Context = Context(sourceRevision: string, ruleVersion: string, dictionaryRevision: string)

  datatype Report = Report(findings: seq<Finding>, evaluated: nat, notEvaluated: nat)

  /** A dictionary surface with the candidates it stands for. */
  datatype Surface = Surface(text: string, candidates: seq<Candidate>)

  function Texts(dictionary: seq<Surface>): (r: seq<string>)
    ensures |r| == |dictionary| && forall k :: 0 <= k < |r| ==> r[k] == dictionary[k].text
  {
    seq(|dictionary|, k requires 0 <= k < |dictionary| => dictionary[k].text)
  }

  function IdOf(m: Span): string { MentionId(m.start, m.end, m.source) }

  /** The choice made for a mention, if any. */
  function ChoiceFor(resolutions: seq<Resolution>, id: string): (r: Option<Choice>)
    ensures r.Some? <==> exists x <- resolutions :: x.mentionId == id
    ensures r.Some? ==> Resolution(id, r.value) in resolutions
  {
    if resolutions == [] then None
    else if resolutions[0].mentionId == id then Some(resolutions[0].choice)
    else ChoiceFor(resolutions[1..], id)
  }

  /** The target spans claimed by findings. */
  function Claimed(findings: seq<Finding>): (r: set<Range>)
    ensures forall x :: x in r <==> exists f <- findings :: f.target == Some(x)
  {
    if findings == [] then {}
    else
      var n := |findings| - 1;
      assert findings == findings[..n] + [findings[n]];
      Claimed(findings[..n]) + (if findings[n].target.Some? then {findings[n].target.value} else {})
  }

  ghost predicate MappingsFit(mappings: seq<Alignment>, target: string)
  {
    InOrder(mappings) && forall a <- mappings :: a.target.Some? ==> a.target.value.end <= |target|
  }

  lemma {:induction false} MappedFits(m: Span, mappings: seq<Alignment>, target: string)
    requires MappingsFit(mappings, target)
    ensures var r := MappedRange(m, mappings); r.Some? ==> r.value.start <= r.value.end <= |target|
  {
    if mappings != [] {
      assert mappings[0] in mappings;
      forall a <- mappings[1..] ensures a in mappings {}
      MappedFits(m, mappings[1..], target);
    }
  }

  /** Where the mappings come from: the caller's alignments, or equally many sentences paired up. */
  ghost predicate IsMapping(source: string, target: string, items: Option<seq<Entry>>, mentions: seq<Span>,
          digit: char -> bool,
                            mappings: seq<Alignment>)
  {
    match items
    case Some(entries) => Accepted(entries, mappings, source, target, mentions)
    case None => SentencePairs(source, target, digit, mappings)
  }

  ghost predicate SentencePairs(source: string, target: string, digit: char -> bool, mappings: seq<Alignment>)
  {
    exists a, b :: Paired(source, target, digit, mappings, a, b)
  }

  ghost predicate Paired(source: string, target: string, digit: char -> bool, mappings: seq<Alignment>,
          a: seq<(nat, nat)>, b: seq<(nat, nat)>)
  {
    && Tiles(source, a, |source|, digit) && Tiles(target, b, |target|, digit)
    && if |a| != |b| then mappings == []
       else |mappings| == |a| && forall k :: 0 <= k < |a| ==> mappings[k] == Alignment(Range(a[k].0, a[k].1), Some(Range(b[k].0, b[k].1)))
  }

  /** The mappings the review works with; `None` when the caller's alignments are refused. */
  method Mappings(source: string, target: string, items: Option<seq<Entry>>, mentions: seq<Span>, digit: char -> bool)
      returns (r: Option<seq<Alignment>>)
    ensures r.Some? ==> IsMapping(source, target, items, mentions, digit, r.value) && MappingsFit(r.value, target)
    ensures r.None? <==> items.Some? && forall all :: !Accepted(items.value, all, source, target, mentions)
  {
    hide Accepted, MappingsFit;
    if items.Some? {
      r := CoerceAlignments(items.value, source, target, mentions);
      if r.Some? { AcceptedFits(items.value, r.value, source, target, mentions); }
      return;
    }
    var a := Ranges(source, digit);
    var b := Ranges(target, digit);
    var mappings := PairUp(a, b);
    hide Tiles;
    assert Paired(source, target, digit, mappings, a, b);
    PairedFits(source, target, digit, mappings, a, b);
    r := Some(mappings);
  }

  /** Sentence by sentence, when there are equally many. */
  method PairUp(a: seq<(nat, nat)>, b: seq<(nat, nat)>) returns (mappings: seq<Alignment>)
    ensures if |a| != |b| then mappings == []
            else |mappings| == |a| && forall k :: 0 <= k < |a| ==> mappings[k] == Alignment(Range(a[k].0, a[k].1), Some(Range(b[k].0, b[k].1)))
  {
    mappings := [];
    if |a| == |b| {
      for k := 0 to |a|
        invariant |mappings| == k
        invariant forall i :: 0 <= i < k ==> mappings[i] == Alignment(Range(a[i].0, a[i].1), Some(Range(b[i].0, b[i].1)))
      {
        mappings := mappings + [Alignment(Range(a[k].0, a[k].1), Some(Range(b[k].0, b[k].1)))];
      }
    }
  }

  lemma AcceptedFits(items: seq<Entry>, all: seq<Alignment>, source: string, target: string, mentions: seq<Span>)
    requires Accepted(items, all, source, target, mentions)
    ensures MappingsFit(all, target)
  {
    forall a <- all ensures a.target.Some? ==> a.target.value.end <= |target|
    {
      var k :| 0 <= k < |all| && all[k] == a;
      assert CoerceEntry(items[k], source, target) == Some(all[k]);
    }
  }

  lemma PairedFits(source: string, target: string, digit: char -> bool, mappings: seq<Alignment>, a: seq<(nat, nat)>,
          b: seq<(nat, nat)>)
    requires Paired(source, target, digit, mappings, a, b)
    ensures MappingsFit(mappings, target)
  {
    forall m <- mappings
      ensures m.source.start < m.source.end && m.target.Some? && m.target.value.start < m.target.value.end <= |target|
    {
      var k :| 0 <= k < |mappings| && mappings[k] == m;
      assert a[k] in a && b[k] in b;
      assert IsSentence(source, a[k].0, a[k].1, digit) && IsSentence(target, b[k].0, b[k].1, digit);
    }
  }

  // ---------------------------------------------------------------- findings, one mention after another

  /** Findings answer the mentions in order, each judged against what the earlier ones claimed. */
  ghost predicate Answers(source: string, target: string, toEn: bool, dictionary: seq<Surface>, mentions: seq<Span>,
                          mappings: seq<Alignment>, resolutions: seq<Resolution>, findings: seq<Finding>)
    requires MappingsFit(mappings, target) && forall m <- mentions :: m.order < |dictionary|
  {
    && |findings| <= |mentions|
    && forall k :: 0 <= k < |findings| ==>
         AnswersAt(target, toEn, dictionary, mentions[k], mappings, resolutions, findings[..k], findings[k])
  }

  ghost predicate AnswersAt(target: string, toEn: bool, dictionary: seq<Surface>, m: Span, mappings: seq<Alignment>,
                            resolutions: seq<Resolution>, before: seq<Finding>, f: Finding)
    requires MappingsFit(mappings, target) && m.order < |dictionary|
  {
    && f.id == IdOf(m) && f.source == Range(m.start, m.end) && f.candidates == dictionary[m.order].candidates
    && RegionOk(MappedRange(m, mappings), target)
    && Judged(target, toEn, f.candidates, MappedRange(m, mappings), Claimed(before), ChoiceFor(resolutions, f.id), f.verdict, f.target)
  }

  ghost predicate RegionOk(region: Option<Range>, target: string)
  {
    region.Some? ==> region.value.start <= region.value.end <= |target|
  }

  /** An official pair names a candidate its mention has. */
  ghost predicate ChoiceOk(resolutions: seq<Resolution>, dictionary: seq<Surface>, m: Span)
    requires m.order < |dictionary|
  {
    match ChoiceFor(resolutions, IdOf(m))
    case Some(OfficialPair(id)) => Selected(dictionary[m.order].candidates, id).Some?
    case _ => true
  }

  /** The judging loop; it raises on the first choice whose candidate is not current. */
  method JudgeAll(source: string, target: string, toEn: bool, dictionary: seq<Surface>, mentions: seq<Span>,
                  mappings: seq<Alignment>, byId: map<string, Choice>, ghost resolutions: seq<Resolution>)
      returns (r: Option<seq<Finding>>, seen: set<string>)
    requires MappingsFit(mappings, target) && forall m <- mentions :: m.order < |dictionary|
    requires forall id :: ChoiceFor(resolutions, id) == if id in byId then Some(byId[id]) else None
    ensures r.Some? <==> forall m <- mentions :: ChoiceOk(resolutions, dictionary, m)
    ensures r.Some? ==> |r.value| == |mentions| && Answers(source, target, toEn, dictionary, mentions, mappings, resolutions, r.value)
    ensures r.Some? ==> forall id :: id in seen <==> id in byId && exists m <- mentions :: IdOf(m) == id
  {
    hide Judged, Selected, ChoiceFor, MentionId, Claimed, MappingsFit, Answers;
    var claims := new Claims();
    var findings: seq<Finding> := [];
    seen := {};
    assert Claimed([]) == {} by { ClaimedNone(); }
    AnswersNone(source, target, toEn, dictionary, mentions, mappings, resolutions);
    for n := 0 to |mentions|
      invariant |findings| == n && claims.used == Claimed(findings)
      invariant Answers(source, target, toEn, dictionary, mentions, mappings, resolutions, findings)
      invariant forall k :: 0 <= k < n ==> ChoiceOk(resolutions, dictionary, mentions[k])
      invariant forall id :: id in seen <==> id in byId && exists k :: 0 <= k < n && IdOf(mentions[k]) == id
    {
      var m := mentions[n];
      assert m in mentions;
      var id := IdOf(m);
      var choice := if id in byId then Some(byId[id]) else None;
      if id in byId { seen := seen + {id}; }
      MappedFits(m, mappings, target);
      var f := claims.Judge(target, toEn, m, dictionary[m.order].candidates, MappedRange(m, mappings), choice);
      if f.None? {
        assert !ChoiceOk(resolutions, dictionary, m);
        return None, seen;
      }
      ClaimedOneMore(findings, f.value);
      AnswersOneMore(source, target, toEn, dictionary, mentions, mappings, resolutions, findings, f.value);
      findings := findings + [f.value];
    }
    r := Some(findings);
  }

  lemma AnswersNone(source: string, target: string, toEn: bool, dictionary: seq<Surface>, mentions: seq<Span>,
                    mappings: seq<Alignment>, resolutions: seq<Resolution>)
    requires MappingsFit(mappings, target) && forall m <- mentions :: m.order < |dictionary|
    ensures Answers(source, target, toEn, dictionary, mentions, mappings, resolutions, [])
  {
  }

  lemma AnswersOneMore(source: string, target: string, toEn: bool, dictionary: seq<Surface>, mentions: seq<Span>,
                       mappings: seq<Alignment>, resolutions: seq<Resolution>, findings: seq<Finding>, f: Finding)
    requires MappingsFit(mappings, target) && forall m <- mentions :: m.order < |dictionary|
    requires Answers(source, target, toEn, dictionary, mentions, mappings, resolutions, findings)
        && |findings| < |mentions|
    requires mentions[|findings|].order < |dictionary|
             && AnswersAt(target, toEn, dictionary, mentions[|findings|], mappings, resolutions, findings, f)
    ensures Answers(source, target, toEn, dictionary, mentions, mappings, resolutions, findings + [f])
  {
    hide AnswersAt;
    var longer := findings + [f];
    forall k | 0 <= k < |longer|
      ensures AnswersAt(target, toEn, dictionary, mentions[k], mappings, resolutions, longer[..k], longer[k])
    {
      assert longer[..k] == if k < |findings| then findings[..k] else findings;
    }
  }

  lemma ClaimedNone()
    ensures Claimed([]) == {}
  {
  }

  lemma ClaimedOneMore(findings: seq<Finding>, f: Finding)
    ensures Claimed(findings + [f]) == Claimed(findings) + (if f.target.Some? then {f.target.value} else {})
  {
    assert (findings + [f])[..|findings|] == findings;
  }

  // ---------------------------------------------------------------- the report

  /** No two findings claim overlapping target text. */
  ghost predicate TargetsApart(findings: seq<Finding>)
  {
    forall i, j :: 0 <= i < j < |findings| && findings[i].target.Some? && findings[j].target.Some?
      ==> !RangesOverlap(findings[i].target.value, findings[j].target.value)
  }

  lemma ClaimsStayApart(source: string, target: string, toEn: bool, dictionary: seq<Surface>, mentions: seq<Span>,
                        mappings: seq<Alignment>, resolutions: seq<Resolution>, findings: seq<Finding>)
    requires MappingsFit(mappings, target) && forall m <- mentions :: m.order < |dictionary|
    requires Answers(source, target, toEn, dictionary, mentions, mappings, resolutions, findings)
    ensures TargetsApart(findings)
  {
    hide Judged;
    forall i, j | 0 <= i < j < |findings| && findings[i].target.Some? && findings[j].target.Some?
      ensures !RangesOverlap(findings[i].target.value, findings[j].target.value)
    {
      var m, f := mentions[j], findings[j];
      assert AnswersAt(target, toEn, dictionary, m, mappings, resolutions, findings[..j], f);
      HitIsSound(target, toEn, f.candidates, MappedRange(m, mappings), Claimed(findings[..j]),
          ChoiceFor(resolutions, f.id), f.verdict, f.target);
      assert findings[..j][i] == findings[i] && findings[i] in findings[..j];
      assert findings[i].target.value in Claimed(findings[..j]);
    }
  }

  /** A verified mention's target text lies in its mapped range and spells an official form of one of its candidates. */
  lemma VerifiedIsHonest(source: string, target: string, toEn: bool, dictionary: seq<Surface>, mentions: seq<Span>,
                         mappings: seq<Alignment>, resolutions: seq<Resolution>, findings: seq<Finding>, k: nat)
    requires MappingsFit(mappings, target) && forall m <- mentions :: m.order < |dictionary|
    requires Answers(source, target, toEn, dictionary, mentions, mappings, resolutions, findings)
    requires k < |findings| && findings[k].verdict == Verified
    ensures var hit, region := findings[k].target, MappedRange(mentions[k], mappings);
            && hit.Some? && region.Some?
                && region.value.start <= hit.value.start < hit.value.end <= region.value.end <= |target|
            && exists c <- dictionary[mentions[k].order].candidates ::
                 target[hit.value.start..hit.value.end] == if toEn then c.en else c.zh
  {
    hide Judged;
    var m, f := mentions[k], findings[k];
    assert AnswersAt(target, toEn, dictionary, m, mappings, resolutions, findings[..k], f);
    HitIsSound(target, toEn, f.candidates, MappedRange(m, mappings), Claimed(findings[..k]),
        ChoiceFor(resolutions, f.id), f.verdict, f.target);
  }

  ghost predicate SidesOk(source: string, target: string)
  {
    0 < |source| <= MAX_SIDE_SCALARS && 0 < |target| <= MAX_SIDE_SCALARS
  }

  ghost predicate IdsDiffer(resolutions: seq<Resolution>)
  {
    forall i, j :: 0 <= i < j < |resolutions| ==> resolutions[i].mentionId != resolutions[j].mentionId
  }

  /** What a review needs of its request, beyond well-formed JSON. */
  ghost predicate Reviewable(source: string, target: string, dictionary: seq<Surface>, mentions: seq<Span>,
          resolutions: seq<Resolution>,
                             context: Option<Context>, current: Context, items: Option<seq<Entry>>)
    requires forall m <- mentions :: m.order < |dictionary|
  {
    && SidesOk(source, target)
    && (resolutions != [] ==> context == Some(current))
    && (items.Some? ==> exists all :: Accepted(items.value, all, source, target, mentions))
    && IdsDiffer(resolutions)
    && (forall x <- resolutions :: exists m <- mentions :: IdOf(m) == x.mentionId)
    && (forall m <- mentions :: ChoiceOk(resolutions, dictionary, m))
  }

  /** The resolutions by mention id; `None` when one id comes twice. */
  method ById(resolutions: seq<Resolution>) returns (r: Option<map<string, Choice>>)
    ensures r.Some? <==> IdsDiffer(resolutions)
    ensures r.Some? ==> forall id :: ChoiceFor(resolutions, id) == if id in r.value then Some(r.value[id]) else None
    ensures r.Some? ==> forall x <- resolutions :: x.mentionId in r.value
  {
    var byId: map<string, Choice> := map[];
    for n := 0 to |resolutions|
      invariant IdsDiffer(resolutions[..n])
      invariant forall id :: id in byId <==> exists k :: 0 <= k < n && resolutions[k].mentionId == id
      invariant forall k :: 0 <= k < n ==> byId[resolutions[k].mentionId] == resolutions[k].choice
    {
      if resolutions[n].mentionId in byId {
        return None;
      }
      byId := byId[resolutions[n].mentionId := resolutions[n].choice];
    }
    assert resolutions[..|resolutions|] == resolutions;
    forall id ensures ChoiceFor(resolutions, id) == if id in byId then Some(byId[id]) else None
    {
      var c := ChoiceFor(resolutions, id);
      if c.Some? {
        var k :| 0 <= k < |resolutions| && resolutions[k] == Resolution(id, c.value);
        assert byId[resolutions[k].mentionId] == c.value;
      } else {
        assert forall k :: 0 <= k < |resolutions| ==> resolutions[k] in resolutions;
      }
    }
    r := Some(byId);
  }

  /**
   `_review_pair_v2`, with the mentions and mappings it worked on: one finding for each selected
   mention, claimed target spans apart, every resolution used, and the counts add up.  It refuses
   exactly the requests that are not reviewable.
   */
  method ReviewPair(source: string, target: string, toEn: bool, dictionary: seq<Surface>, resolutions: seq<Resolution>,
                    context: Option<Context>, current: Context, items: Option<seq<Entry>>, digit: char -> bool)
      returns (r: Option<Report>, mentions: seq<Span>, mappings: seq<Alignment>)
    ensures IsSelection(source, Texts(dictionary), mentions) && forall m <- mentions :: m.order < |dictionary|
    ensures r.Some? <==> Reviewable(source, target, dictionary, mentions, resolutions, context, current, items)
    ensures r.Some? ==>
              && IsMapping(source, target, items, mentions, digit, mappings) && MappingsFit(mappings, target)
              && |r.value.findings| == |mentions|
              && Answers(source, target, toEn, dictionary, mentions, mappings, resolutions, r.value.findings)
              && TargetsApart(r.value.findings)
              && (var verdicts := multiset(Verdicts(r.value.findings));
                  && r.value.evaluated == verdicts[Verified] + verdicts[Conflict] + verdicts[NeedsReview]
                  && r.value.notEvaluated == 1 + verdicts[NotEvaluated])
  {
    hide Accepted, Answers, IsMapping, MappingsFit, ChoiceOk, ChoiceFor, MentionId, IsSelection;
    var selected := SelectSpans(source, Texts(dictionary));
    mentions, mappings := selected, [];
    SelectedOrders(source, dictionary, selected);
    if source == "" || |source| > MAX_SIDE_SCALARS || target == ""
        || |target| > MAX_SIDE_SCALARS { return None, mentions, mappings; }
    if resolutions != [] && context != Some(current) { return None, mentions, mappings; }
    var maps := Mappings(source, target, items, selected, digit);
    if maps.None? { return None, mentions, mappings; }
    mappings := maps.value;
    var byId := ById(resolutions);
    if byId.None? { return None, mentions, mappings; }
    var findings, seen := JudgeAll(source, target, toEn, dictionary, selected, maps.value, byId.value, resolutions);
    if findings.None? { return None, mentions, mappings; }
    if !(byId.value.Keys <= seen) {
      ghost var id :| id in byId.value && id !in seen;
      assert ChoiceFor(resolutions, id).Some?;
      return None, mentions, mappings;
    }
    ClaimsStayApart(source, target, toEn, dictionary, selected, maps.value, resolutions, findings.value);
    var evaluated, notEvaluated := Coverage(findings.value);
    r := Some(Report(findings.value, evaluated, notEvaluated));
  }

  function Verdicts(findings: seq<Finding>): (r: seq<Verdict>)
    ensures |r| == |findings| && forall k :: 0 <= k < |r| ==> r[k] == findings[k].verdict
  {
    seq(|findings|, k requires 0 <= k < |findings| => findings[k].verdict)
  }

  /** The coverage: how many mentions were evaluated, and how many were not, with the meaning of the sentences. */
  method Coverage(findings: seq<Finding>) returns (evaluated: nat, notEvaluated: nat)
    ensures var verdicts := multiset(Verdicts(findings));
            && evaluated == verdicts[Verified] + verdicts[Conflict] + verdicts[NeedsReview]
            && notEvaluated == 1 + verdicts[NotEvaluated]
  {
    evaluated, notEvaluated := 0, 1;
    ghost var all := Verdicts(findings);
    for n := 0 to |findings|
      invariant var verdicts := multiset(all[..n]);
                && evaluated == verdicts[Verified] + verdicts[Conflict] + verdicts[NeedsReview]
                && notEvaluated == 1 + verdicts[NotEvaluated]
    {
      assert all[..n + 1] == all[..n] + [all[n]];
      if findings[n].verdict in {Verified, Conflict, NeedsReview} {
        evaluated := evaluated + 1;
      } else {
        notEvaluated := notEvaluated + 1;
      }
    }
    assert all[..|findings|] == all;
  }

  lemma SelectedOrders(source: string, dictionary: seq<Surface>, mentions: seq<Span>)
    requires IsSelection(source, Texts(dictionary), mentions)
    ensures forall m <- mentions :: m.order < |dictionary|
  {
    forall m <- mentions ensures m.order < |dictionary| { assert IsCandidate(source, Texts(dictionary), m); }
  }

  /** A choice reaches one mention only: no two mentions of a selection share an id. */
  lemma IdsName(source: string, dictionary: seq<Surface>, mentions: seq<Span>, i: nat, j: nat)
    requires IsSelection(source, Texts(dictionary), mentions) && i < j < |mentions|
    ensures IdOf(mentions[i]) != IdOf(mentions[j])
  {
    hide MentionId;
    assert IsCandidate(source, Texts(dictionary), mentions[i]) && mentions[i].end <= mentions[j].start;
    if IdOf(mentions[i]) == IdOf(mentions[j]) {
      MentionIdInjective(mentions[i].start, mentions[i].end, mentions[i].source, mentions[j].start, mentions[j].end,
          mentions[j].source);
    }
  }
}
