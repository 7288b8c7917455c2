/** Carrying a writer's choices from one draft to the next: relocating spans and reconciling choices. */
module Manuscript {
  import opened Text
  import opened Mentions

  datatype Span = Span(start: nat, end: nat, text: string)

  /** `validSpan`: the span reads its own text in the content. */
  predicate ValidSpan(s: Span, content: string)
  {
    s.start < s.end <= |content| && content[s.start..s.end] == s.text && |s.text| <= 2000
  }

  // ---------------------------------------------------------------- blocks

  /** A line of the source, by its offsets. */
  datatype Block = Block(start: nat, end: nat, text: string)

  /** `source.split('\n')`. */
  function SplitLines(s: string): (r: seq<string>)
    ensures |r| > 0
    decreases |s|
  {
    match Find(s, "\n", 0)
    case None => [s]
    case Some(k) => [s[..k]] + SplitLines(s[k + 1..])
  }

  /** `sourceBlocks`. */
  method SourceBlocks(source: string) returns (blocks: seq<Block>)
    ensures blocks == Blocks(source, 0)
  {
    var lines := SplitLines(source);
    var start: nat := 0;
    blocks := [];
    assert lines[0..] == lines;
    SplitIsBlocks(source, 0);
    hide SplitLines, Blocks, FromLines;
    for n := 0 to |lines|
      invariant Blocks(source, 0) == blocks + FromLines(lines[n..], start)
    {
      NextLine(blocks, lines, n, start);
      blocks := blocks + [Block(start, start + |lines[n]|, lines[n])];
      start := start + |lines[n]| + 1;
    }
    NoLines(blocks, lines, start);
  }

  lemma NextLine(blocks: seq<Block>, lines: seq<string>, n: nat, start: nat)
    requires n < |lines|
    ensures var block := Block(start, start + |lines[n]|, lines[n]);
            blocks + FromLines(lines[n..], start) == (blocks + [block]) + FromLines(lines[n + 1..], block.end + 1)
  {
    assert lines[n..][0] == lines[n] && lines[n..][1..] == lines[n + 1..];
  }

  lemma NoLines(blocks: seq<Block>, lines: seq<string>, start: nat)
    ensures blocks + FromLines(lines[|lines|..], start) == blocks
  {
  }

  function FromLines(lines: seq<string>, base: nat): seq<Block>
    decreases |lines|
  {
    if lines == [] then []
    else [Block(base, base + |lines[0]|, lines[0])] + FromLines(lines[1..], base + |lines[0]| + 1)
  }

  function Blocks(s: string, base: nat): (r: seq<Block>)
    ensures |r| > 0
    decreases |s|
  {
    match Find(s, "\n", 0)
    case None => [Block(base, base + |s|, s)]
    case Some(k) => [Block(base, base + k, s[..k])] + Blocks(s[k + 1..], base + k + 1)
  }

  lemma {:induction false} SplitIsBlocks(s: string, base: nat)
    ensures FromLines(SplitLines(s), base) == Blocks(s, base)
    decreases |s|
  {
    match Find(s, "\n", 0)
    case None =>
    case Some(k) =>
      SplitIsBlocks(s[k + 1..], base + k + 1);
      assert SplitLines(s)[1..] == SplitLines(s[k + 1..]);
  }

  /** Blocks stand one after another, a newline between each two. */
  ghost predicate WellPlaced(blocks: seq<Block>, base: nat)
  {
    && (forall b <- blocks :: base <= b.start && b.end == b.start + |b.text|)
    && (forall i, j :: 0 <= i < j < |blocks| ==> blocks[i].end < blocks[j].start)
  }

  lemma {:induction false} BlocksPlaced(s: string, base: nat)
    ensures WellPlaced(Blocks(s, base), base)
    decreases |s|
  {
    hide WellPlaced;
    match Find(s, "\n", 0)
    case None =>
      OnePlaced(Block(base, base + |s|, s), base);
    case Some(k) =>
      var later := Blocks(s[k + 1..], base + k + 1);
      BlocksPlaced(s[k + 1..], base + k + 1);
      FirstPlaced(Block(base, base + k, s[..k]), later, base);
  }

  lemma OnePlaced(b: Block, base: nat)
    requires b.start == base && b.end == base + |b.text|
    ensures WellPlaced([b], base)
  {
  }

  lemma FirstPlaced(b: Block, later: seq<Block>, base: nat)
    requires b.start == base && b.end == base + |b.text| && WellPlaced(later, b.end + 1)
    ensures WellPlaced([b] + later, base)
  {
    var blocks := [b] + later;
    forall i, j | 0 <= i < j < |blocks| ensures blocks[i].end < blocks[j].start
    {
      assert blocks[j] == later[j - 1] && later[j - 1] in later;
      if i > 0 { assert blocks[i] == later[i - 1]; }
    }
  }

  // ---------------------------------------------------------------- relocation

  predicate Holds(b: Block, s: Span) { b.start <= s.start && s.end <= b.end }

  /** The first block around a span. */
  function Around(blocks: seq<Block>, s: Span): (r: Option<Block>)
    ensures r.Some? ==> r.value in blocks && Holds(r.value, s)
    ensures r.None? ==> forall b <- blocks :: !Holds(b, s)
  {
    if blocks == [] then None
    else if Holds(blocks[0], s) then Some(blocks[0])
    else Around(blocks[1..], s)
  }

  function Reading(blocks: seq<Block>, text: string): (r: seq<Block>)
    ensures forall b :: b in r <==> b in blocks && b.text == text
  {
    if blocks == [] then []
    else (if blocks[0].text == text then [blocks[0]] else []) + Reading(blocks[1..], text)
  }

  /** The place of a span in the one block that reads like its own, which must be the only one on both sides. */
  function Relocated(before: seq<Block>, after: seq<Block>, s: Span): Option<Span>
    requires s.start <= s.end
  {
    var block := Around(before, s);
    if block.None? || |Reading(before, block.value.text)| != 1 || |Reading(after, block.value.text)| != 1 then None
    else
      var start := Reading(after, block.value.text)[0].start + (s.start - block.value.start);
      Some(Span(start, start + (s.end - s.start), s.text))
  }

  /** `recoverSpan`. */
  function RecoverSpan(earlier: string, s: Span, source: string): Option<Span>
  {
    if !ValidSpan(s, earlier) then None
    else if earlier == source then Some(s)
    else
      var recovered := Relocated(Blocks(earlier, 0), Blocks(source, 0), s);
      if recovered.Some? && ValidSpan(recovered.value, source) then recovered else None
  }

  /** No text lies in two blocks at once. */
  lemma AroundIs(blocks: seq<Block>, s: Span, b: Block)
    requires WellPlaced(blocks, 0) && b in blocks && Holds(b, s) && s.start < s.end
    ensures Around(blocks, s) == Some(b)
  {
    var a := Around(blocks, s).value;
    var i :| 0 <= i < |blocks| && blocks[i] == a;
    var j :| 0 <= j < |blocks| && blocks[j] == b;
    assert i == j;
  }

  lemma OnlyReading(blocks: seq<Block>, b: Block)
    requires b in blocks && |Reading(blocks, b.text)| == 1
    ensures Reading(blocks, b.text) == [b]
  {
    assert b in Reading(blocks, b.text);
  }

  lemma RelocatedInverse(before: seq<Block>, after: seq<Block>, s: Span)
    requires WellPlaced(before, 0) && WellPlaced(after, 0) && s.start < s.end && Relocated(before, after, s).Some?
    ensures Relocated(after, before, Relocated(before, after, s).value) == Some(s)
  {
    hide Around, Reading;
    var t, block := Relocated(before, after, s).value, Around(before, s).value;
    var matched := Reading(after, block.text)[0];
    assert matched in Reading(after, block.text);
    OnlyReading(before, block);
    AroundIs(after, t, matched);
  }

  /** Relocation carries the text and is its own inverse: a partial bijection between two drafts. */
  lemma RecoverInverse(a: string, s: Span, b: string)
    requires RecoverSpan(a, s, b).Some?
    ensures var t := RecoverSpan(a, s, b).value;
            t.text == s.text && ValidSpan(t, b) && RecoverSpan(b, t, a) == Some(s)
  {
    hide Blocks, ValidSpan, WellPlaced;
    if a != b {
      BlocksPlaced(a, 0);
      BlocksPlaced(b, 0);
      ValidIsNonempty(s, a);
      RelocatedInverse(Blocks(a, 0), Blocks(b, 0), s);
    }
  }

  lemma ValidIsNonempty(s: Span, content: string)
    requires ValidSpan(s, content)
    ensures s.start < s.end
  {
  }

  /** Two spans of one draft never land on the same place. */
  lemma RecoverInjective(a: string, s: Span, r: Span, b: string)
    requires RecoverSpan(a, s, b).Some? && RecoverSpan(a, s, b) == RecoverSpan(a, r, b)
    ensures s == r
  {
    hide RecoverSpan;
    RecoverInverse(a, s, b);
    RecoverInverse(a, r, b);
  }

  // ---------------------------------------------------------------- when a span is recovered

  /** A whole line of the text: newlines or the ends of the text around it, and none inside. */
  ghost predicate LineAt(s: string, line: string, start: nat)
  {
    && OccursAt(s, line, start) && '\n' !in line
    && (start == 0 || s[start - 1] == '\n') && (start + |line| == |s| || s[start + |line|] == '\n')
  }

  /** It stands there and nowhere else. */
  ghost predicate OnlyLineAt(s: string, line: string, start: nat)
  {
    LineAt(s, line, start) && forall other: nat :: LineAt(s, line, other) ==> other == start
  }

  /** The block of a line that starts `at` characters after `base`. */
  function BlockOf(line: string, base: nat, at: nat): Block { Block(base + at, base + at + |line|, line) }

  lemma FirstNewline(s: string)
    ensures match Find(s, "\n", 0)
            case None => '\n' !in s
            case Some(k) => k < |s| && s[k] == '\n' && '\n' !in s[..k]
  {
    match Find(s, "\n", 0)
    case None =>
      forall i | 0 <= i < |s| ensures s[i] != '\n' { assert !OccursAt(s, "\n", i); assert s[i..i + 1] == [s[i]]; }
    case Some(k) =>
      assert s[k..k + 1] == "\n";
      assert s[k] == s[k..k + 1][0];
      forall i | 0 <= i < k ensures s[..k][i] != '\n' { assert !OccursAt(s, "\n", i); assert s[i..i + 1] == [s[i]]; }
  }

  /** The lines behind the first newline are those of the text behind it. */
  lemma LineBehind(s: string, k: nat, line: string, at: nat)
    requires k < |s| && s[k] == '\n' && '\n' !in s[..k]
    ensures LineAt(s, line, at) <==> if at <= k then at == 0 && line == s[..k] else LineAt(s[k + 1..], line, at - k - 1)
  {
    var rest := s[k + 1..];
    forall i | 0 <= i < k ensures s[i] != '\n' { assert s[..k][i] == s[i]; }
    if at <= k {
      if LineAt(s, line, at) {
        assert at == 0;
        assert forall i :: 0 <= i < |line| ==> line[i] == s[i] && line[i] in line;
        assert |line| == k;
      }
    } else if at - k - 1 + |line| <= |rest| {
      assert rest[at - k - 1..at - k - 1 + |line|] == s[at..at + |line|];
    }
  }

  lemma OneLine(s: string, line: string, at: nat)
    requires '\n' !in s
    ensures LineAt(s, line, at) <==> at == 0 && line == s
  {
    assert forall i :: 0 <= i < |s| ==> s[i] in s && s[i] != '\n';
    assert s[0..|s|] == s;
  }

  /** The blocks are exactly the whole lines, each with its offsets. */
  lemma {:induction false} BlocksAreLines(s: string, base: nat, line: string, at: nat)
    ensures BlockOf(line, base, at) in Blocks(s, base) <==> LineAt(s, line, at)
    decreases |s|
  {
    hide LineAt, WellPlaced, Find, OccursAt;
    FirstNewline(s);
    match Find(s, "\n", 0)
    case None =>
      OneLine(s, line, at);
      assert Blocks(s, base) == [BlockOf(s, base, 0)];
    case Some(k) =>
      LineBehind(s, k, line, at);
      FirstBlock(s, base, k, BlockOf(line, base, at));
      hide Blocks;
      assert at <= k ==> (BlockOf(line, base, at) == Block(base, base + k, s[..k]) <==> at == 0 && line == s[..k]);
      if at > k {
        BlocksAreLines(s[k + 1..], base + k + 1, line, at - k - 1);
      } else {
        BlocksPlaced(s[k + 1..], base + k + 1);
        NotLater(Blocks(s[k + 1..], base + k + 1), base + k + 1, BlockOf(line, base, at));
      }
  }

  lemma NotLater(blocks: seq<Block>, base: nat, b: Block)
    requires WellPlaced(blocks, base) && b.start < base
    ensures b !in blocks
  {
  }

  lemma FirstBlock(s: string, base: nat, k: nat, b: Block)
    requires Find(s, "\n", 0) == Some(k) && k < |s|
    ensures b in Blocks(s, base) <==> b == Block(base, base + k, s[..k]) || b in Blocks(s[k + 1..], base + k + 1)
  {
  }

  /** Every block is a line. */
  lemma BlockIsLine(s: string, b: Block)
    requires b in Blocks(s, 0)
    ensures b == BlockOf(b.text, 0, b.start) && LineAt(s, b.text, b.start)
  {
    hide LineAt, Blocks;
    BlocksPlaced(s, 0);
    BlocksAreLines(s, 0, b.text, b.start);
  }

  /** A line that stands once is read once. */
  lemma {:induction false} ReadOnce(blocks: seq<Block>, base: nat, b: Block)
    requires WellPlaced(blocks, base) && b in blocks && forall c <- blocks :: c.text == b.text ==> c == b
    ensures Reading(blocks, b.text) == [b]
  {
    var first, rest := blocks[0], blocks[1..];
    forall c <- rest ensures c in blocks && first.end < c.start {
      var i :| 0 <= i < |rest| && rest[i] == c;
      assert blocks[i + 1] == c;
    }
    assert WellPlaced(rest, base) by {
      forall i, j | 0 <= i < j < |rest| ensures rest[i].end < rest[j].start { assert blocks[i + 1] == rest[i] && blocks[j + 1] == rest[j]; }
    }
    if first == b {
      assert forall c <- rest :: c.text != b.text;
      NoneRead(rest, b.text);
    } else {
      ReadOnce(rest, base, b);
    }
  }

  lemma NoneRead(blocks: seq<Block>, text: string)
    requires forall c <- blocks :: c.text != text
    ensures Reading(blocks, text) == []
  {
  }

  lemma OnlyLineReads(s: string, line: string, start: nat)
    requires OnlyLineAt(s, line, start)
    ensures Reading(Blocks(s, 0), line) == [BlockOf(line, 0, start)] && BlockOf(line, 0, start) in Blocks(s, 0)
  {
    hide LineAt, Blocks, Reading;
    BlocksAreLines(s, 0, line, start);
    BlocksPlaced(s, 0);
    forall c <- Blocks(s, 0) | c.text == line ensures c == BlockOf(line, 0, start) { BlockIsLine(s, c); }
    ReadOnce(Blocks(s, 0), 0, BlockOf(line, 0, start));
  }

  lemma ReadsOnlyLine(s: string, b: Block)
    requires b in Blocks(s, 0) && |Reading(Blocks(s, 0), b.text)| == 1
    ensures OnlyLineAt(s, b.text, b.start)
  {
    hide LineAt, Blocks, Reading;
    BlockIsLine(s, b);
    OnlyReading(Blocks(s, 0), b);
    forall other: nat | LineAt(s, b.text, other) ensures other == b.start {
      BlocksAreLines(s, 0, b.text, other);
      assert BlockOf(b.text, 0, other) in Reading(Blocks(s, 0), b.text);
    }
  }

  /** The span lies in a line that stands once in each draft, `start` characters into one and `moved` into the other. */
  ghost predicate Recoverable(a: string, s: Span, b: string, line: string, start: nat, moved: nat)
  {
    OnlyLineAt(a, line, start) && OnlyLineAt(b, line, moved) && start <= s.start && s.end <= start + |line|
  }

  /** In such a line it is found again, at the same distance from its beginning. */
  lemma RecoverSucceeds(a: string, s: Span, b: string, line: string, start: nat, moved: nat)
    requires a != b && ValidSpan(s, a) && Recoverable(a, s, b, line, start, moved)
    ensures RecoverSpan(a, s, b) == Some(Span(moved + (s.start - start), moved + (s.end - start), s.text))
  {
    hide Blocks, Reading, Around;
    OnlyLineReads(a, line, start);
    OnlyLineReads(b, line, moved);
    BlocksPlaced(a, 0);
    AroundIs(Blocks(a, 0), s, BlockOf(line, 0, start));
    assert b[moved..moved + |line|] == line == a[start..start + |line|];
    SliceOf(a, start, start + |line|, s.start - start, s.end - start);
    SliceOf(b, moved, moved + |line|, s.start - start, s.end - start);
  }

  lemma SliceOf(s: string, from: nat, to: nat, start: nat, end: nat)
    requires from <= to <= |s| && start <= end <= to - from
    ensures s[from..to][start..end] == s[from + start..from + end]
  {
    var slice := s[from..to];
    assert forall i :: start <= i < end ==> slice[i] == s[from + i];
  }

  /**
   Between two drafts a span is recovered if and only if it reads its text in the first and lies in a
   line that stands exactly once in each.
   */
  lemma RecoverIff(a: string, s: Span, b: string)
    requires a != b
    ensures RecoverSpan(a, s, b).Some? <==>
              ValidSpan(s, a) && exists line: string, start: nat, moved: nat :: Recoverable(a, s, b, line, start, moved)
  {
    hide Blocks, Reading, Around, Recoverable, OnlyLineAt;
    if RecoverSpan(a, s, b).Some? { RecoveredLine(a, s, b); }
    if ValidSpan(s, a) {
      forall line: string, start: nat, moved: nat | Recoverable(a, s, b, line, start, moved)
        ensures RecoverSpan(a, s, b).Some?
      {
        RecoverSucceeds(a, s, b, line, start, moved);
      }
    }
  }

  lemma RecoveredLine(a: string, s: Span, b: string)
    requires a != b && RecoverSpan(a, s, b).Some?
    ensures exists line: string, start: nat, moved: nat :: Recoverable(a, s, b, line, start, moved)
  {
    hide Blocks, Reading, Around, OnlyLineAt;
    var block := Around(Blocks(a, 0), s).value;
    var matched := Reading(Blocks(b, 0), block.text)[0];
    assert matched in Reading(Blocks(b, 0), block.text);
    ReadsOnlyLine(a, block);
    ReadsOnlyLine(b, matched);
    BlockIsLine(a, block);
    assert Recoverable(a, s, b, block.text, block.start, matched.start);
  }

  // ---------------------------------------------------------------- choices

  datatype Candidate = Candidate(id: string, zh: string, en: string, category: string)

  datatype Decision = NotATerm | OfficialPair(candidate: Candidate)

  datatype Alignment = Alignment(source: Span, target: Option<Span>)

  /** `scopeOf`; `Foreign` is any other text a workfile may hold there. */
  datatype Scope = Positional | Unmapped | Region(a: Alignment) | Foreign(text: string)

  datatype Basis = Basis(ruleVersion: string, schemaVersion: Option<string>, sourceCommit: Option<string>, termCount: nat, revision: Option<string>)

  datatype Choice = Choice(source: string, toEn: bool, span: Span, scope: Scope, decision: Decision, basis: Basis)

  datatype Finding = Finding(id: string, candidates: seq<Candidate>)

  datatype Report = Report(findings: seq<Finding>, truncated: bool, basis: Basis)

  datatype Draft = Draft(source: string, toEn: bool, alignments: Option<seq<Alignment>>)

  datatype Fresh = Fresh(source: string, toEn: bool, trusted: bool, report: Report)

  datatype Resolution = Resolution(mentionId: string, candidateId: Option<string>)

  /** A choice that can be submitted again, or one that waits for the writer; and where it now points. */
  datatype Result = Applicable(span: Span, resolution: Resolution) | Pending(where: Option<Span>)

  function ScopeOf(alignments: Option<seq<Alignment>>, s: Span): (r: Scope)
    ensures r == Positional <==> alignments.None?
  {
    if alignments.None? then Positional else FirstRegion(alignments.value, s)
  }

  /** Alignment `k` is the first around the span. */
  predicate FirstAround(alignments: seq<Alignment>, s: Span, k: nat)
    requires k < |alignments|
  {
    && alignments[k].source.start <= s.start && s.end <= alignments[k].source.end
    && forall j :: 0 <= j < k ==> !(alignments[j].source.start <= s.start && s.end <= alignments[j].source.end)
  }

  /** The first alignment around the span. */
  function FirstRegion(alignments: seq<Alignment>, s: Span): (r: Scope)
    ensures r.Unmapped? || r.Region?
    ensures r.Region? <==> exists a <- alignments :: a.source.start <= s.start && s.end <= a.source.end
    ensures r.Region? ==> exists k :: 0 <= k < |alignments| && r == Region(alignments[k]) && FirstAround(alignments, s, k)
  {
    if alignments == [] then Unmapped
    else if alignments[0].source.start <= s.start && s.end <= alignments[0].source.end then Region(alignments[0])
    else FirstRegion(alignments[1..], s)
  }

  predicate IsRevision(r: Option<string>) { r.Some? && |r.value| == 64 && AllHex(r.value) }

  predicate IsGiven(s: Option<string>) { s.Some? && 0 < |s.value| <= 4096 }

  /** `sameBasis`. */
  predicate SameBasis(a: Basis, b: Basis)
  {
    && a.ruleVersion == "review-v2" && b.ruleVersion == "review-v2"
    && IsGiven(a.schemaVersion) && IsGiven(b.schemaVersion) && IsGiven(a.sourceCommit) && IsGiven(b.sourceCommit)
    && IsRevision(a.revision) && a.revision == b.revision && a.sourceCommit == b.sourceCommit
    && a.schemaVersion == b.schemaVersion && a.termCount == b.termCount
  }

  /** A basis that can be compared: of the second rules, with nothing it rests on left out. */
  predicate Complete(a: Basis)
  {
    && a.ruleVersion == "review-v2"
    && a.schemaVersion.Some? && 0 < |a.schemaVersion.value| <= 4096
    && a.sourceCommit.Some? && 0 < |a.sourceCommit.value| <= 4096
    && a.revision.Some? && |a.revision.value| == 64
    && forall i :: 0 <= i < 64 ==> '0' <= a.revision.value[i] <= '9' || 'a' <= a.revision.value[i] <= 'f'
  }

  /** The same basis is the same in every part, and complete. */
  lemma SameBasisIff(a: Basis, b: Basis)
    ensures SameBasis(a, b) <==> a == b && Complete(a)
  {
  }

  function IdOf(s: Span): string { MentionId(s.start, s.end, s.text) }

  function FindingWith(findings: seq<Finding>, id: string): (r: Option<Finding>)
    ensures r.Some? ==> r.value in findings && r.value.id == id
    ensures r.None? ==> forall f <- findings :: f.id != id
  {
    if findings == [] then None
    else if findings[0].id == id then Some(findings[0])
    else FindingWith(findings[1..], id)
  }

  /** `reconcileChoice`. */
  function ReconcileChoice(c: Choice, draft: Draft, current: Option<Fresh>, imported: bool): Result
  {
    var span := RecoverSpan(c.source, c.span, draft.source);
    if c.toEn != draft.toEn || span.None? then Pending(span)
    else if c.scope != ScopeOf(draft.alignments, span.value) then Pending(span)
    else if current.None? || current.value.source != draft.source || current.value.toEn != draft.toEn
        || !current.value.trusted then Pending(span)
    else if !SameBasis(c.basis, current.value.report.basis) then Pending(span)
    else
      var finding := FindingWith(current.value.report.findings, IdOf(span.value));
      if finding.None? || current.value.report.truncated then Pending(span)
      else if c.decision.NotATerm? then
        if imported then Pending(span) else Applicable(span.value, Resolution(finding.value.id, None))
      else if c.decision.candidate in finding.value.candidates then
        Applicable(span.value, Resolution(finding.value.id, Some(c.decision.candidate.id)))
      else Pending(span)
  }

  function Where(r: Result): Option<Span> { if r.Applicable? then Some(r.span) else r.where }

  /** The mention id of the place a result points at. */
  function PlaceId(r: Result): Option<string> { if Where(r).Some? then Some(IdOf(Where(r).value)) else None }

  /** How many results point at a place. */
  function Pointing(results: seq<Result>, id: string): nat
  {
    if results == [] then 0
    else
      var n := |results| - 1;
      (if PlaceId(results[n]) == Some(id) then 1 else 0) + Pointing(results[..n], id)
  }

  /** Results that do not collide, the others put back to pending. */
  predicate Uncollided(base: seq<Result>, results: seq<Result>)
  {
    && |results| == |base|
    && forall k :: 0 <= k < |base| ==>
         results[k] == (if Collides(base, base[k]) then Pending(Where(base[k])) else base[k])
  }

  predicate Collides(base: seq<Result>, r: Result) { PlaceId(r).Some? && Pointing(base, PlaceId(r).value) > 1 }

  predicate AllReconciled(choices: seq<Choice>, draft: Draft, current: Option<Fresh>, imported: seq<bool>,
          base: seq<Result>)
  {
    && |base| == |choices| == |imported|
    && forall k :: 0 <= k < |base| ==> base[k] == ReconcileChoice(choices[k], draft, current, imported[k])
  }

  /** `reconcileChoices`, with the results as they were before collisions are taken out. */
  method ReconcileChoices(choices: seq<Choice>, draft: Draft, current: Option<Fresh>, imported: seq<bool>)
      returns (results: seq<Result>, base: seq<Result>)
    requires |imported| == |choices|
    ensures AllReconciled(choices, draft, current, imported, base) && Uncollided(base, results)
  {
    hide ReconcileChoice, PlaceId, Where;
    var first: seq<Result> := [];
    for n := 0 to |choices|
      invariant |first| == n && forall k :: 0 <= k < n ==> first[k] == ReconcileChoice(choices[k], draft, current, imported[k])
    {
      first := first + [ReconcileChoice(choices[n], draft, current, imported[n])];
    }
    var counts: map<string, nat> := map[];
    for n := 0 to |first|
      invariant forall id :: (if id in counts then counts[id] else 0) == Pointing(first[..n], id)
    {
      assert first[..n + 1][..n] == first[..n];
      var id := PlaceId(first[n]);
      if id.Some? { counts := counts[id.value := (if id.value in counts then counts[id.value] else 0) + 1]; }
    }
    assert first[..|first|] == first;
    results := [];
    for n := 0 to |first|
      invariant |results| == n
      invariant forall k :: 0 <= k < n ==>
        results[k] == (if Collides(first, first[k]) then Pending(Where(first[k])) else first[k])
    {
      var id := PlaceId(first[n]);
      var collides := id.Some? && id.value in counts && counts[id.value] > 1;
      results := results + [if collides then Pending(Where(first[n])) else first[n]];
    }
    base := first;
  }

  lemma {:induction false} TwoPoint(results: seq<Result>, i: nat, j: nat, id: string)
    requires i < j < |results| && PlaceId(results[i]) == Some(id) == PlaceId(results[j])
    ensures Pointing(results, id) >= 2
  {
    hide PlaceId;
    var n := |results| - 1;
    if j < n {
      TwoPoint(results[..n], i, j, id);
    } else {
      OnePoints(results[..n], i, id);
    }
  }

  lemma {:induction false} OnePoints(results: seq<Result>, i: nat, id: string)
    requires i < |results| && PlaceId(results[i]) == Some(id)
    ensures Pointing(results, id) >= 1
  {
    hide PlaceId;
    if i < |results| - 1 { OnePoints(results[..|results| - 1], i, id); }
  }

  lemma {:induction false} PointingTwice(results: seq<Result>, id: string, k: nat)
    requires k < |results| && PlaceId(results[k]) == Some(id) && Pointing(results, id) > 1
    ensures exists j :: 0 <= j < |results| && j != k && PlaceId(results[j]) == Some(id)
  {
    hide PlaceId;
    var n := |results| - 1;
    if k < n {
      if PlaceId(results[n]) != Some(id) { PointingTwice(results[..n], id, k); }
    } else {
      SomePoints(results[..n], id);
    }
  }

  lemma {:induction false} SomePoints(results: seq<Result>, id: string)
    requires Pointing(results, id) > 0
    ensures exists j :: 0 <= j < |results| && PlaceId(results[j]) == Some(id)
  {
    hide PlaceId;
    var n := |results| - 1;
    if PlaceId(results[n]) != Some(id) { SomePoints(results[..n], id); }
  }

  /**
   Exactly when a choice can be submitted again: it is for this direction, its place is found again
   under the scope it was made in, a trusted and complete report on this very draft rests on the same
   dictionary and has a finding there that still allows the decision, and no other choice points there.
   */
  lemma ApplicableIff(base: seq<Result>, results: seq<Result>, choices: seq<Choice>, draft: Draft,
          current: Option<Fresh>, imported: seq<bool>, k: nat)
    requires AllReconciled(choices, draft, current, imported, base) && Uncollided(base, results) && k < |results|
    ensures var c, span := choices[k], RecoverSpan(choices[k].source, choices[k].span, draft.source);
            && Where(results[k]) == span
            && (results[k].Applicable? <==>
                && c.toEn == draft.toEn && span.Some? && c.scope == ScopeOf(draft.alignments, span.value)
                && current.Some? && current.value.source == draft.source && current.value.toEn == draft.toEn
                && current.value.trusted && !current.value.report.truncated
                && c.basis == current.value.report.basis && Complete(c.basis)
                && (var f := FindingWith(current.value.report.findings, IdOf(span.value));
                    f.Some? && if c.decision.NotATerm? then !imported[k] else c.decision.candidate in f.value.candidates)
                && forall j :: 0 <= j < |results| && j != k ==> Where(results[j]) != span)
  {
    if current.Some? { SameBasisIff(choices[k].basis, current.value.report.basis); }
    hide RecoverSpan, SameBasis, ScopeOf, IdOf, Complete;
    var span := Where(base[k]);
    if span.Some? {
      if Pointing(base, IdOf(span.value)) > 1 {
        PointingTwice(base, IdOf(span.value), k);
        var j :| 0 <= j < |base| && j != k && PlaceId(base[j]) == Some(IdOf(span.value));
        SameIdSamePlace(Where(base[j]).value, span.value);
      } else if j :| 0 <= j < |base| && j != k && Where(base[j]) == span {
        TwoPoint(base, if j < k then j else k, if j < k then k else j, IdOf(span.value));
      }
    }
  }

  lemma SameIdSamePlace(s: Span, t: Span)
    requires IdOf(s) == IdOf(t)
    ensures s == t
  {
    MentionIdInjective(s.start, s.end, s.text, t.start, t.end, t.text);
  }

  /** Applicable choices name different mentions, whatever drafts they come from. */
  lemma ApplicableDiffer(base: seq<Result>, results: seq<Result>, choices: seq<Choice>, draft: Draft,
          current: Option<Fresh>, imported: seq<bool>, i: nat, j: nat)
    requires AllReconciled(choices, draft, current, imported, base) && Uncollided(base, results)
    requires i < j < |results| && results[i].Applicable? && results[j].Applicable?
    ensures results[i].resolution.mentionId != results[j].resolution.mentionId
    ensures results[i].span != results[j].span
  {
    ApplicableIsBacked(base, results, choices, draft, current, imported, i);
    ApplicableIsBacked(base, results, choices, draft, current, imported, j);
    hide ReconcileChoice, IdOf;
    if IdOf(results[i].span) == IdOf(results[j].span) { TwoPoint(base, i, j, IdOf(results[i].span)); }
  }

  /**
   An applicable choice points at the same text in the current draft, and its id is that of a
   finding of a trusted, complete report on that very draft and on an unchanged dictionary; an
   official pair is still one of that finding's candidates.
   */
  lemma ApplicableIsBacked(base: seq<Result>, results: seq<Result>, choices: seq<Choice>, draft: Draft,
          current: Option<Fresh>, imported: seq<bool>, k: nat)
    requires AllReconciled(choices, draft, current, imported, base) && Uncollided(base, results)
    requires k < |results| && results[k].Applicable?
    ensures results[k] == base[k] && results[k].resolution.mentionId == IdOf(results[k].span)
    ensures ValidSpan(results[k].span, draft.source) && results[k].span.text == choices[k].span.text
    ensures RecoverSpan(draft.source, results[k].span, choices[k].source) == Some(choices[k].span)
    ensures current.Some? && current.value.trusted && !current.value.report.truncated
        && current.value.source == draft.source
    ensures choices[k].toEn == draft.toEn == current.value.toEn
    ensures choices[k].scope == ScopeOf(draft.alignments, results[k].span)
    ensures SameBasis(choices[k].basis, current.value.report.basis)
    ensures exists f <- current.value.report.findings ::
              && f.id == IdOf(results[k].span)
              && (choices[k].decision.OfficialPair? ==> choices[k].decision.candidate in f.candidates
                                                         && results[k].resolution.candidateId == Some(choices[k].decision.candidate.id))
    ensures choices[k].decision.NotATerm? ==> !imported[k]
  {
    hide RecoverSpan, IdOf, SameBasis, ScopeOf;
    RecoverInverse(choices[k].source, choices[k].span, draft.source);
  }
}
