/** The published form of a review report: sorted, capped, and trimmed to a byte limit. */
module ReviewProjection {
  import opened Text
  import Sorting

  const REVIEW_MAX_FINDINGS := 32
  const REVIEW_MAX_CANDIDATES := 8
  const REVIEW_MAX_SOURCES := 8
  const REVIEW_MAX_JSON_BYTES := 65536

  datatype Source = Source(file: string, id: string)

  datatype Candidate = Candidate(zh: string, en: string, category: string, sources: seq<Source>, id: Option<string>)

  /** A finding; `rest` is the JSON of the members the projection copies unchanged. */
  datatype Finding = Finding(id: string, start: nat, end: nat, rest: string, candidates: seq<Candidate>, candidatesTruncated: bool)

  datatype Body = Body(findings: seq<Finding>, truncated: bool)

  // ---------------------------------------------------------------- order

  /** Python's order on strings. */
  predicate LexLe(s: string, t: string)
  {
    s == "" || (t != "" && (s[0] < t[0] || (s[0] == t[0] && LexLe(s[1..], t[1..]))))
  }

  lemma {:induction false} LexTotal(s: string, t: string)
    ensures LexLe(s, t) || LexLe(t, s)
  {
    if s != "" && t != "" { LexTotal(s[1..], t[1..]); }
  }

  lemma {:induction false} LexTransitive(s: string, t: string, u: string)
    requires LexLe(s, t) && LexLe(t, u)
    ensures LexLe(s, u)
  {
    if s != "" && s[0] == t[0] == u[0] { LexTransitive(s[1..], t[1..], u[1..]); }
  }

  /** By start, longer first, then by id. */
  predicate Le(a: Finding, b: Finding)
  {
    a.start < b.start || (a.start == b.start && (a.end > b.end || (a.end == b.end && LexLe(a.id, b.id))))
  }

  lemma LeIsPreorder()
    ensures Sorting.TotalPreorder<Finding>(Le)
  {
    forall a: Finding, b: Finding ensures Le(a, b) || Le(b, a) { LexTotal(a.id, b.id); }
    forall a: Finding, b: Finding, c: Finding | Le(a, b) && Le(b, c) ensures Le(a, c)
    {
      if LexLe(a.id, b.id) && LexLe(b.id, c.id) { LexTransitive(a.id, b.id, c.id); }
    }
  }

  // ---------------------------------------------------------------- caps

  function Take<T>(s: seq<T>, n: nat): (r: seq<T>)
    ensures r <= s && |r| == if |s| < n then |s| else n
  {
    if |s| < n then s else s[..n]
  }

  function CapSources(c: Candidate): Candidate { c.(sources := Take(c.sources, REVIEW_MAX_SOURCES)) }

  function CapEach(cs: seq<Candidate>): (r: seq<Candidate>)
    ensures |r| == |cs| && forall k :: 0 <= k < |r| ==> r[k] == CapSources(cs[k])
  {
    seq(|cs|, k requires 0 <= k < |cs| => CapSources(cs[k]))
  }

  /** `_review_finding_to_wire`. */
  method ToWire(f: Finding) returns (w: Finding)
    ensures w == Wire(f)
  {
    var truncated := f.candidatesTruncated;
    if |f.candidates| > REVIEW_MAX_CANDIDATES { truncated := true; }
    var kept := Take(f.candidates, REVIEW_MAX_CANDIDATES);
    var wire: seq<Candidate> := [];
    for k := 0 to |kept|
      invariant wire == CapEach(kept[..k])
      invariant truncated <==> f.candidatesTruncated || |f.candidates| > REVIEW_MAX_CANDIDATES || CapEach(kept[..k]) != kept[..k]
    {
      assert kept[..k + 1] == kept[..k] + [kept[k]]
          && CapEach(kept[..k + 1]) == CapEach(kept[..k]) + [CapSources(kept[k])];
      assert CapEach(kept[..k + 1])[..k] == CapEach(kept[..k]) && kept[..k + 1][..k] == kept[..k];
      assert CapSources(kept[k]) == kept[k] <==> |kept[k].sources| <= REVIEW_MAX_SOURCES;
      if |kept[k].sources| > REVIEW_MAX_SOURCES { truncated := true; }
      wire := wire + [CapSources(kept[k])];
    }
    assert kept[..|kept|] == kept;
    w := f.(candidates := wire, candidatesTruncated := truncated);
    assert CapEach(kept) == f.candidates <==> |f.candidates| <= REVIEW_MAX_CANDIDATES && CapEach(kept) == kept;
  }

  /** A finding under the caps, flagged when the caps cost it anything. */
  function Wire(f: Finding): (w: Finding)
    ensures w == f.(candidates := w.candidates, candidatesTruncated := w.candidatesTruncated)
    ensures |w.candidates| == if |f.candidates| < 8 then |f.candidates| else 8
    ensures forall k :: 0 <= k < |w.candidates| ==>
              && w.candidates[k] == f.candidates[k].(sources := w.candidates[k].sources)
              && w.candidates[k].sources <= f.candidates[k].sources
              && |w.candidates[k].sources| == if |f.candidates[k].sources| < 8 then |f.candidates[k].sources| else 8
    ensures w.candidatesTruncated
        <==> f.candidatesTruncated || |f.candidates| > 8 || exists k :: 0 <= k < |f.candidates| && |f.candidates[k].sources| > 8
  {
    var kept := CapEach(Take(f.candidates, REVIEW_MAX_CANDIDATES));
    CapsCost(f.candidates);
    f.(candidates := kept, candidatesTruncated := f.candidatesTruncated || kept != f.candidates)
  }

  lemma CapsCost(cs: seq<Candidate>)
    ensures CapEach(Take(cs, REVIEW_MAX_CANDIDATES)) != cs
            <==> |cs| > 8 || exists k :: 0 <= k < |cs| && |cs[k].sources| > 8
  {
    var kept := CapEach(Take(cs, REVIEW_MAX_CANDIDATES));
    if |cs| <= 8 {
      forall k | 0 <= k < |cs| ensures kept[k] == cs[k] <==> |cs[k].sources| <= 8 {}
      if forall k :: 0 <= k < |cs| ==> |cs[k].sources| <= 8 { assert kept == cs; }
    }
  }

  // ---------------------------------------------------------------- trimming

  /** `_trim_finding_payload`: one source, or one candidate, less; `None` when nothing is left to drop. */
  function TrimFinding(f: Finding): Option<Finding>
  {
    if f.candidates == [] then None
    else
      var n := |f.candidates| - 1;
      var last := f.candidates[n];
      if |last.sources| > 1 then
        Some(f.(candidates := f.candidates[..n] + [last.(sources := last.sources[..|last.sources| - 1])], candidatesTruncated := true))
      else
        Some(f.(candidates := f.candidates[..n], candidatesTruncated := true))
  }

  function Weight(cs: seq<Candidate>): nat
  {
    if cs == [] then 0 else 1 + |cs[|cs| - 1].sources| + Weight(cs[..|cs| - 1])
  }

  lemma TrimIsLighter(f: Finding)
    requires TrimFinding(f).Some?
    ensures Weight(TrimFinding(f).value.candidates) < Weight(f.candidates)
  {
    var n := |f.candidates| - 1;
    var last := f.candidates[n];
    if |last.sources| > 1 {
      var shorter := f.candidates[..n] + [last.(sources := last.sources[..|last.sources| - 1])];
      assert shorter[..|shorter| - 1] == f.candidates[..n];
    }
  }

  function Load(b: Body): nat { if b.findings == [] then 0 else Weight(b.findings[0].candidates) }

  /** One round of the trimming loop. */
  function Shrink(b: Body): Body
    requires b.findings != []
  {
    if |b.findings| > 1 then Body(b.findings[..|b.findings| - 1], true)
    else
      match TrimFinding(b.findings[0])
      case Some(f) => b.(findings := [f])
      case None => Body([], true)
  }

  lemma ShrinkEnds(b: Body)
    requires b.findings != []
    ensures |Shrink(b).findings| < |b.findings| || (|Shrink(b).findings| == |b.findings| && Load(Shrink(b)) < Load(b))
  {
    if |b.findings| == 1 && TrimFinding(b.findings[0]).Some? { TrimIsLighter(b.findings[0]); }
  }

  /** The first body along the trimming rounds that fits, or the empty one. */
  ghost predicate FirstFit(b: Body, r: Body, size: Body -> nat)
    decreases |b.findings|, Load(b)
  {
    if size(b) <= REVIEW_MAX_JSON_BYTES || b.findings == [] then r == b
    else (ShrinkEnds(b); FirstFit(Shrink(b), r, size))
  }

  // ---------------------------------------------------------------- what trimming keeps

  /** `c` is `d` with sources dropped from the end, but not all of them. */
  predicate FewerSources(c: Candidate, d: Candidate)
  {
    c == d || (0 < |c.sources| < |d.sources| && c == d.(sources := d.sources[..|c.sources|]))
  }

  /**
   `f` is `g` with candidates dropped from the end and sources from the last one left; dropping
   anything sets the flag.
   */
  predicate Shortened(f: Finding, g: Finding)
  {
    && f == g.(candidates := f.candidates, candidatesTruncated := f.candidatesTruncated)
    && |f.candidates| <= |g.candidates|
    && (forall k :: 0 <= k < |f.candidates| - 1 ==> f.candidates[k] == g.candidates[k])
    && (f.candidates != [] ==> FewerSources(f.candidates[|f.candidates| - 1], g.candidates[|f.candidates| - 1]))
    && f.candidatesTruncated == (g.candidatesTruncated || f.candidates != g.candidates)
  }

  lemma TrimShortens(f: Finding, g: Finding)
    requires Shortened(f, g) && TrimFinding(f).Some?
    ensures Shortened(TrimFinding(f).value, g)
  {
    var n := |f.candidates| - 1;
    var t := TrimFinding(f).value;
    var last := f.candidates[n];
    if |last.sources| > 1 {
      assert |t.candidates[n].sources| < |g.candidates[n].sources|;
      var m := |last.sources| - 1;
      assert last.sources[..m] == g.candidates[n].sources[..m];
    } else if n > 0 {
      assert t.candidates[n - 1] == f.candidates[n - 1];
    }
    assert t.candidates != g.candidates;
  }

  /**
   `r` keeps the first findings of `b`, only the very first possibly shortened, and says when
   something is missing.
   */
  predicate Kept(r: Body, b: Body)
  {
    && |r.findings| <= |b.findings|
    && (forall k :: 1 <= k < |r.findings| ==> r.findings[k] == b.findings[k])
    && (r.findings != [] ==> Shortened(r.findings[0], b.findings[0]))
    && (|r.findings| > 1 ==> r.findings[0] == b.findings[0])
    && r.truncated == (b.truncated || |r.findings| < |b.findings|)
  }

  lemma {:induction false} FirstFitGood(b: Body, now: Body, r: Body, size: Body -> nat)
    requires Kept(now, b) && FirstFit(now, r, size)
    ensures Kept(r, b) && (size(r) <= REVIEW_MAX_JSON_BYTES || r.findings == [])
    decreases |now.findings|, Load(now)
  {
    if !(size(now) <= REVIEW_MAX_JSON_BYTES || now.findings == []) {
      ShrinkEnds(now);
      if |now.findings| == 1 && TrimFinding(now.findings[0]).Some? {
        TrimShortens(now.findings[0], b.findings[0]);
      }
      FirstFitGood(b, Shrink(now), r, size);
    }
  }

  // ---------------------------------------------------------------- trimming drops no more than it must

  /** `f` keeps more candidates than `g`, or as many and more sources of the last one. */
  predicate Longer(f: Finding, g: Finding)
  {
    var m, n := |f.candidates|, |g.candidates|;
    m > n || (m == n > 0 && |f.candidates[m - 1].sources| > |g.candidates[n - 1].sources|)
  }

  /** `x` keeps more findings than `y`, or more of the one both have left. */
  predicate More(x: Body, y: Body)
  {
    |x.findings| > |y.findings| || (|x.findings| == |y.findings| == 1 && Longer(x.findings[0], y.findings[0]))
  }

  /** Nothing shortens a finding that was not kept. */
  lemma ShortenedNotLonger(f: Finding, g: Finding)
    requires Shortened(f, g)
    ensures !Longer(f, g)
  {
  }

  lemma SameShortened(f: Finding, h: Finding, g: Finding)
    requires Shortened(f, g) && Shortened(h, g) && !Longer(f, h) && !Longer(h, f)
    ensures f == h
  {
    assert |f.candidates| == |h.candidates|;
    forall k | 0 <= k < |f.candidates| ensures f.candidates[k] == h.candidates[k]
    {
      if k == |f.candidates| - 1 {
        assert FewerSources(f.candidates[k], g.candidates[k]) && FewerSources(h.candidates[k], g.candidates[k]);
        assert g.candidates[k].sources[..|g.candidates[k].sources|] == g.candidates[k].sources;
      }
    }
    assert f.candidates == h.candidates;
  }

  /** One round takes the last step there is: what keeps more than its result keeps more than what it started from. */
  lemma TrimIsNext(x: Finding, f: Finding, g: Finding)
    requires Shortened(x, g) && Shortened(f, g) && TrimFinding(f).Some? && Longer(x, TrimFinding(f).value)
    ensures Longer(x, f) || x == f
  {
    var n := |f.candidates| - 1;
    var last := f.candidates[n];
    assert FewerSources(last, g.candidates[n]);
    if |x.candidates| == n + 1 {
      assert FewerSources(x.candidates[n], g.candidates[n]);
    }
    if !Longer(x, f) {
      assert !Longer(f, x);
      SameShortened(x, f, g);
    }
  }

  lemma ShrinkIsNext(x: Body, now: Body, b: Body)
    requires Kept(x, b) && Kept(now, b) && now.findings != [] && More(x, Shrink(now))
    ensures More(x, now) || x == now
  {
    hide Shortened, Longer, TrimFinding;
    if |now.findings| > 1 {
      if |x.findings| == |now.findings| {
        assert x.findings == now.findings;
      } else if |x.findings| == 1 {
        ShortenedNotLonger(x.findings[0], b.findings[0]);
      }
    } else if |x.findings| == 1 {
      var f, g := now.findings[0], b.findings[0];
      if TrimFinding(f).Some? {
        TrimIsNext(x.findings[0], f, g);
      } else {
        NothingLeft(x.findings[0], f, g);
      }
      assert x.findings == [x.findings[0]] && now.findings == [f];
    }
  }

  lemma NothingLeft(x: Finding, f: Finding, g: Finding)
    requires Shortened(x, g) && Shortened(f, g) && TrimFinding(f).None?
    ensures Longer(x, f) || x == f
  {
    if x.candidates == [] { SameShortened(x, f, g); }
  }

  /** Whatever keeps more of `b` than `r` does not fit. */
  ghost predicate Maximal(b: Body, r: Body, size: Body -> nat)
  {
    forall x :: Kept(x, b) && More(x, r) ==> size(x) > REVIEW_MAX_JSON_BYTES
  }

  lemma {:induction false} FirstFitMaximal(b: Body, now: Body, r: Body, size: Body -> nat)
    requires Kept(now, b) && FirstFit(now, r, size) && Maximal(b, now, size)
    ensures Maximal(b, r, size)
    decreases |now.findings|, Load(now)
  {
    hide Kept, More, Shrink;
    if !(size(now) <= REVIEW_MAX_JSON_BYTES || now.findings == []) {
      ShrinkEnds(now);
      ShrinkKept(now, b);
      forall x | Kept(x, b) && More(x, Shrink(now)) ensures size(x) > REVIEW_MAX_JSON_BYTES { ShrinkIsNext(x, now, b); }
      FirstFitMaximal(b, Shrink(now), r, size);
    }
  }

  lemma ShrinkKept(now: Body, b: Body)
    requires Kept(now, b) && now.findings != []
    ensures Kept(Shrink(now), b)
  {
    if |now.findings| == 1 && TrimFinding(now.findings[0]).Some? { TrimShortens(now.findings[0], b.findings[0]); }
  }

  lemma NoneKeepsMore(b: Body, size: Body -> nat)
    ensures Maximal(b, b, size)
  {
    forall x | Kept(x, b) ensures !More(x, b) {
      if |x.findings| == 1 { ShortenedNotLonger(x.findings[0], b.findings[0]); }
    }
  }

  /**
   What that means: no longer prefix of the findings fits, and when at most one finding is left, neither
   does the first one with a candidate or a source more.
   */
  lemma MaximalMeans(b: Body, r: Body, size: Body -> nat)
    requires Maximal(b, r, size)
    ensures forall n :: |r.findings| < n <= |b.findings| ==>
                          size(Body(b.findings[..n], b.truncated || n < |b.findings|)) > REVIEW_MAX_JSON_BYTES
    ensures forall f :: b.findings != [] && Shortened(f, b.findings[0])
                        && (r.findings == [] || (|r.findings| == 1 && Longer(f, r.findings[0]))) ==>
                          size(Body([f], b.truncated || 1 < |b.findings|)) > REVIEW_MAX_JSON_BYTES
  {
    hide Shortened, Longer;
    forall n | |r.findings| < n <= |b.findings|
      ensures size(Body(b.findings[..n], b.truncated || n < |b.findings|)) > REVIEW_MAX_JSON_BYTES
    {
      ShortenedItself(b.findings[0]);
      var x := Body(b.findings[..n], b.truncated || n < |b.findings|);
      assert Kept(x, b) && More(x, r);
    }
    forall f | b.findings != [] && Shortened(f, b.findings[0])
               && (r.findings == [] || (|r.findings| == 1 && Longer(f, r.findings[0])))
      ensures size(Body([f], b.truncated || 1 < |b.findings|)) > REVIEW_MAX_JSON_BYTES
    {
      var x := Body([f], b.truncated || 1 < |b.findings|);
      assert Kept(x, b) && More(x, r);
    }
  }

  /** The trimming loop, dropping from the end in place. */
  method TrimLoop(b: Body, size: Body -> nat) returns (r: Body)
    ensures Kept(r, b) && (size(r) <= REVIEW_MAX_JSON_BYTES || r.findings == []) && Maximal(b, r, size)
  {
    hide Kept, Maximal;
    var findings, truncated := b.findings, b.truncated;
    ghost var done := false;
    while size(Body(findings, truncated)) > REVIEW_MAX_JSON_BYTES && findings != []
      invariant forall r :: FirstFit(Body(findings, truncated), r, size) ==> FirstFit(b, r, size)
      decreases |findings|, Load(Body(findings, truncated))
    {
      ghost var before := Body(findings, truncated);
      ShrinkEnds(before);
      if |findings| > 1 {
        findings, truncated := findings[..|findings| - 1], true;
      } else {
        var f := TrimFinding(findings[0]);
        if f.Some? {
          findings := [f.value];
        } else {
          findings, truncated := [], true;
        }
      }
      assert Body(findings, truncated) == Shrink(before);
      forall r | FirstFit(Body(findings, truncated), r, size) ensures FirstFit(b, r, size)
      {
        assert FirstFit(before, r, size);
      }
    }
    r := Body(findings, truncated);
    assert FirstFit(r, r, size);
    KeptItself(b);
    FirstFitGood(b, b, r, size);
    NoneKeepsMore(b, size);
    FirstFitMaximal(b, b, r, size);
  }

  // ---------------------------------------------------------------- the projection

  function WireAll(fs: seq<Finding>): (r: seq<Finding>)
    ensures |r| == |fs| && forall k :: 0 <= k < |r| ==> r[k] == Wire(fs[k])
  {
    seq(|fs|, k requires 0 <= k < |fs| => Wire(fs[k]))
  }

  /** The body before trimming: the first findings in order, under the caps. */
  function Untrimmed(findings: seq<Finding>, truncated: bool): (b: Body)
    ensures |b.findings| == if |Sorting.Sort(Le, findings)| < 32 then |Sorting.Sort(Le, findings)| else 32
    ensures forall k :: 0 <= k < |b.findings| ==> b.findings[k] == Wire(Sorting.Sort(Le, findings)[k])
    ensures b.truncated == (truncated || |b.findings| < |Sorting.Sort(Le, findings)|)
  {
    var ordered := Sorting.Sort(Le, findings);
    Body(WireAll(Take(ordered, REVIEW_MAX_FINDINGS)), truncated || |ordered| > REVIEW_MAX_FINDINGS)
  }

  /**
   A published finding and the report's own: nothing but candidates and sources off the end is
   missing, and if so it says so.
   */
  predicate Publishes(w: Finding, f: Finding)
  {
    && w == f.(candidates := w.candidates, candidatesTruncated := w.candidatesTruncated)
    && |w.candidates| <= |f.candidates| && |w.candidates| <= REVIEW_MAX_CANDIDATES
    && (forall k :: 0 <= k < |w.candidates| ==>
          && w.candidates[k] == f.candidates[k].(sources := w.candidates[k].sources)
          && w.candidates[k].sources <= f.candidates[k].sources && |w.candidates[k].sources| <= REVIEW_MAX_SOURCES)
    && w.candidatesTruncated == (f.candidatesTruncated || w.candidates != f.candidates)
  }

  lemma WireShortenedPublishes(w: Finding, f: Finding)
    requires Shortened(w, Wire(f))
    ensures Publishes(w, f)
  {
    var g := Wire(f);
    forall k | 0 <= k < |w.candidates|
      ensures w.candidates[k] == f.candidates[k].(sources := w.candidates[k].sources)
      ensures w.candidates[k].sources <= f.candidates[k].sources && |w.candidates[k].sources| <= REVIEW_MAX_SOURCES
    {
      assert g.candidates[k] == CapSources(f.candidates[k]);
      assert FewerSources(w.candidates[k], g.candidates[k]);
    }
    if w.candidates == f.candidates {
      assert g.candidates == f.candidates by {
        assert |g.candidates| == |f.candidates|;
        forall k | 0 <= k < |g.candidates| ensures g.candidates[k] == f.candidates[k]
        {
          assert g.candidates[k] == CapSources(f.candidates[k]) && |w.candidates[k].sources| <= REVIEW_MAX_SOURCES;
        }
      }
    }
  }

  method WireEach(kept: seq<Finding>) returns (wire: seq<Finding>)
    ensures wire == WireAll(kept)
  {
    hide Wire;
    wire := [];
    for k := 0 to |kept|
      invariant |wire| == k && forall i :: 0 <= i < k ==> wire[i] == Wire(kept[i])
    {
      var w := ToWire(kept[k]);
      wire := wire + [w];
    }
  }

  lemma PrefixPublishes(body: Body, start: Body, ordered: seq<Finding>)
    requires Kept(body, start) && |start.findings| <= |ordered|
    requires forall k :: 0 <= k < |start.findings| ==> start.findings[k] == Wire(ordered[k])
    ensures forall k :: 0 <= k < |body.findings| ==> Publishes(body.findings[k], ordered[k])
  {
    hide Publishes, Shortened, Wire;
    forall k | 0 <= k < |body.findings| ensures Publishes(body.findings[k], ordered[k])
    {
      ShortenedItself(start.findings[k]);
      WireShortenedPublishes(body.findings[k], ordered[k]);
    }
  }

  lemma OrderIs(ordered: seq<Finding>)
    requires Sorting.Ordered(Le, ordered)
    ensures forall i, j :: 0 <= i < j < |ordered| ==>
              var a, b := ordered[i], ordered[j];
              a.start < b.start || (a.start == b.start && (a.end > b.end || (a.end == b.end && LexLe(a.id, b.id))))
  {
    hide LexLe;
  }

  /**
   `project_review_report`.  The published findings are a prefix of the sorted ones; a dropped
   finding sets `truncated` and nothing else does; a dropped candidate or source sets that
   finding's flag and nothing else does; the body fits unless no finding is left; and no more is
   dropped than must be: neither one more of the capped findings nor, once a single one is left, one
   more of its candidates or sources would fit.
   */
  method Project(findings: seq<Finding>, truncated: bool, size: Body -> nat) returns (body: Body)
    ensures var ordered := Sorting.Sort(Le, findings);
            && Sorting.Ordered(Le, ordered) && multiset(ordered) == multiset(findings) && |ordered| == |findings|
            && |body.findings| <= |ordered| && |body.findings| <= REVIEW_MAX_FINDINGS
            && (forall k :: 0 <= k < |body.findings| ==> Publishes(body.findings[k], ordered[k]))
            && body.truncated == (truncated || |body.findings| < |findings|)
    ensures forall i, j :: 0 <= i < j < |Sorting.Sort(Le, findings)| ==>
              var a, b := Sorting.Sort(Le, findings)[i], Sorting.Sort(Le, findings)[j];
              a.start < b.start || (a.start == b.start && (a.end > b.end || (a.end == b.end && LexLe(a.id, b.id))))
    ensures size(body) <= REVIEW_MAX_JSON_BYTES || body.findings == []
    ensures var u, n := Untrimmed(findings, truncated), |body.findings|;
            && (forall m :: n < m <= |u.findings| ==>
                  size(Body(u.findings[..m], u.truncated || m < |u.findings|)) > REVIEW_MAX_JSON_BYTES)
            && (forall f :: u.findings != [] && Shortened(f, u.findings[0])
                            && (n == 0 || (n == 1 && Longer(f, body.findings[0]))) ==>
                  size(Body([f], u.truncated || 1 < |u.findings|)) > REVIEW_MAX_JSON_BYTES)
  {
    hide Le, Publishes, Shortened, Wire, Longer, More;
    LeIsPreorder();
    Sorting.SortGood(Le, findings);
    var ordered := Sorting.Sort(Le, findings);
    OrderIs(ordered);
    var wire := WireEach(Take(ordered, REVIEW_MAX_FINDINGS));
    var start := Body(wire, truncated || |ordered| > REVIEW_MAX_FINDINGS);
    body := TrimLoop(start, size);
    MaximalMeans(start, body, size);
    assert start == Untrimmed(findings, truncated);
    PrefixPublishes(body, start, ordered);
  }

  lemma ShortenedItself(f: Finding)
    ensures Shortened(f, f)
  {
  }

  lemma KeptItself(b: Body)
    ensures Kept(b, b)
  {
  }
}
