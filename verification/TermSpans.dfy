/** Which stretches of a text are official terms: exhaustive search, then longest-first choice. */
module TermSpans {
  import opened Text
  import Sorting

  /** A stretch of text spelling a dictionary surface; `order` is the surface's place in the dictionary. */
  datatype Span = Span(start: nat, end: nat, source: string, order: nat)

  /** `char.isascii() and char.isalnum()`. */
  predicate IsWord(c: char) { '0' <= c <= '9' || 'A' <= c <= 'Z' || 'a' <= c <= 'z' }

  /** A match must not be glued to an ASCII word character on a side where it has one itself. */
  predicate BoundariesOk(text: string, start: nat, end: nat, source: string)
    requires start <= end <= |text|
  {
    && source != ""
    && !(IsWord(source[0]) && start > 0 && IsWord(text[start - 1]))
    && !(IsWord(source[|source| - 1]) && end < |text| && IsWord(text[end]))
  }

  predicate IsOccurrence(text: string, needle: string, at: nat)
  {
    OccursAt(text, needle, at) && BoundariesOk(text, at, at + |needle|, needle)
  }

  /** Positions strictly increasing, and exactly the boundary-valid ones in `[lo, hi)`. */
  ghost predicate Occurrences(text: string, needle: string, hi: nat, found: seq<nat>)
  {
    && (forall i, j :: 0 <= i < j < |found| ==> found[i] < found[j])
    && (forall at: nat :: at in found <==> at < hi && IsOccurrence(text, needle, at))
  }

  /** Every occurrence, overlapping ones included. */
  method FindOccurrences(text: string, needle: string) returns (found: seq<nat>)
    ensures Occurrences(text, needle, |text| + 1, found)
  {
    found := [];
    if needle == "" { return; }
    var start := 0;
    while true
      invariant start <= |text| + 1
      invariant Occurrences(text, needle, start, found)
      decreases |text| + 1 - start
    {
      var next := Find(text, needle, start);
      if next.None? {
        forall at: nat ensures at in found <==> at < |text| + 1 && IsOccurrence(text, needle, at)
        {
          if at >= start { assert !OccursAt(text, needle, at); }
        }
        return;
      }
      var at := next.value;
      assert forall k :: 0 <= k < |found| ==> found[k] in found;
      if BoundariesOk(text, at, at + |needle|, needle) { found := found + [at]; }
      start := at + 1;
    }
  }

  predicate IsCandidate(text: string, surfaces: seq<string>, s: Span)
  {
    && s.order < |surfaces| && s.source == surfaces[s.order]
    && s.end == s.start + |s.source| && IsOccurrence(text, s.source, s.start)
  }

  function At(start: nat, surface: string, order: nat): Span { Span(start, start + |surface|, surface, order) }

  /** Every occurrence of every surface. */
  method CandidateSpans(text: string, surfaces: seq<string>) returns (spans: seq<Span>)
    ensures forall s: Span :: s in spans <==> IsCandidate(text, surfaces, s)
  {
    spans := [];
    for order := 0 to |surfaces|
      invariant forall s: Span :: s in spans <==> IsCandidate(text, surfaces, s) && s.order < order
    {
      var surface := surfaces[order];
      var found := FindOccurrences(text, surface);
      ghost var before := spans;
      for k := 0 to |found|
        invariant forall s: Span :: s in spans <==> s in before || (s.start in found[..k] && s == At(s.start, surface, order))
      {
        spans := spans + [At(found[k], surface, order)];
      }
      assert found[..|found|] == found;
    }
  }

  // ---------------------------------------------------------------- choosing

  predicate Overlap(a: Span, b: Span) { a.start < b.end && b.start < a.end }

  /** Longer first, then earlier in the dictionary, then further left.  The dictionary place fixes the spelling. */
  predicate Earlier(a: Span, b: Span)
  {
    var m, n := a.end - a.start, b.end - b.start;
    m > n || (m == n && (a.order < b.order || (a.order == b.order && a.start < b.start)))
  }

  predicate NotAfter(a: Span, b: Span) { !Earlier(b, a) }

  predicate LeftOf(a: Span, b: Span) { a.start <= b.start }

  ghost predicate Apart(selected: seq<Span>)
  {
    forall i, j :: 0 <= i < j < |selected| ==> !Overlap(selected[i], selected[j])
  }

  /**
   The choice: from left to right without overlaps, and every candidate left out overlaps a chosen
   one that takes precedence over it.
   */
  ghost predicate IsSelection(text: string, surfaces: seq<string>, selected: seq<Span>)
  {
    && (forall s <- selected :: IsCandidate(text, surfaces, s))
    && (forall i, j :: 0 <= i < j < |selected| ==> selected[i].end <= selected[j].start)
    && (forall s: Span :: IsCandidate(text, surfaces, s) && s !in selected ==> Beaten(s, selected))
  }

  ghost predicate Beaten(s: Span, selected: seq<Span>)
  {
    exists t <- selected :: Overlap(s, t) && Earlier(t, s)
  }

  lemma NoneOverlap()
    ensures Apart([])
  {
  }

  lemma ApartWith(selected: seq<Span>, span: Span)
    requires Apart(selected) && forall t <- selected :: !Overlap(span, t)
    ensures Apart(selected + [span])
  {
    var longer := selected + [span];
    forall i, j | 0 <= i < j < |longer| ensures !Overlap(longer[i], longer[j])
    {
      assert longer[i] == selected[i] && selected[i] in selected;
      assert longer[j] == if j < |selected| then selected[j] else span;
    }
  }

  /** Of two overlapping candidates the one sorted first is the same or wins. */
  lemma TakenIsBeaten(text: string, surfaces: seq<string>, selected: seq<Span>, span: Span, t: Span)
    requires IsCandidate(text, surfaces, span) && IsCandidate(text, surfaces, t)
    requires t in selected && Overlap(span, t) && NotAfter(t, span)
    ensures span in selected || Beaten(span, selected)
  {
    if t != span { assert Earlier(t, span); }
  }

  lemma BeatenStill(s: Span, selected: seq<Span>, span: Span)
    requires Beaten(s, selected)
    ensures Beaten(s, selected + [span])
  {
    var t :| t in selected && Overlap(s, t) && Earlier(t, s);
    assert t in selected + [span];
  }

  /** Longest first, skipping what overlaps an earlier choice. */
  method Choose(sorted: seq<Span>, ghost text: string, ghost surfaces: seq<string>) returns (selected: seq<Span>)
    requires Sorting.Ordered(NotAfter, sorted)
    requires forall s <- sorted :: IsCandidate(text, surfaces, s)
    ensures forall s <- selected :: s in sorted
    ensures Apart(selected)
    ensures forall s <- sorted :: s in selected || Beaten(s, selected)
  {
    hide Beaten, Apart, IsCandidate, Overlap, NotAfter;
    selected := [];
    assert Apart([]) by { NoneOverlap(); }
    for k := 0 to |sorted|
      invariant forall s <- selected :: s in sorted[..k]
      invariant Apart(selected)
      invariant forall s <- sorted[..k] :: s in selected || Beaten(s, selected)
    {
      var span := sorted[k];
      var taken := exists t <- selected :: Overlap(span, t);
      if taken {
        var t :| t in selected && Overlap(span, t);
        var i :| 0 <= i < k && sorted[i] == t;
        assert NotAfter(t, span) && t in sorted && span in sorted;
        TakenIsBeaten(text, surfaces, selected, span, t);
      } else {
        ApartWith(selected, span);
        forall s | Beaten(s, selected) ensures Beaten(s, selected + [span]) { BeatenStill(s, selected, span); }
        selected := selected + [span];
      }
    }
    assert sorted[..|sorted|] == sorted;
  }

  /** Term selection, as both the sentence translator and the pair review run it. */
  method SelectSpans(text: string, surfaces: seq<string>) returns (selected: seq<Span>)
    ensures IsSelection(text, surfaces, selected)
  {
    var spans := CandidateSpans(text, surfaces);
    var sorted := Sorting.Sort(NotAfter, spans);
    Sorting.SortGood(NotAfter, spans);
    Sorting.SameItems(sorted, spans);
    var chosen := Choose(sorted, text, surfaces);
    selected := Sorting.Sort(LeftOf, chosen);
    Sorting.SortGood(LeftOf, chosen);
    Sorting.SameItems(selected, chosen);
    SortedApart(chosen, selected);
    forall s: Span | IsCandidate(text, surfaces, s) && s !in selected ensures Beaten(s, selected)
    {
      assert s in sorted && Beaten(s, chosen);
    }
  }

  /** Disjoint spans stay disjoint when sorted, and then follow one another. */
  lemma SortedApart(chosen: seq<Span>, selected: seq<Span>)
    requires Apart(chosen) && forall s <- chosen :: s.start < s.end
    requires multiset(chosen) == multiset(selected) && Sorting.Ordered(LeftOf, selected)
    ensures forall i, j :: 0 <= i < j < |selected| ==> selected[i].end <= selected[j].start
  {
    forall i, j | 0 <= i < j < |selected| ensures selected[i].end <= selected[j].start
    {
      var a, b := selected[i], selected[j];
      assert a in multiset(selected) && b in multiset(selected);
      assert a in chosen && b in chosen;
      assert LeftOf(a, b);
      if a == b {
        Sorting.Repeated(selected, i, j);
        OnceOnly(chosen, a);
        assert false;
      }
    }
  }

  lemma OnceOnly(chosen: seq<Span>, a: Span)
    requires Apart(chosen) && a.start < a.end
    ensures multiset(chosen)[a] <= 1
  {
    forall i, j | 0 <= i < j < |chosen| ensures !(chosen[i] == a && chosen[j] == a)
    {
      assert !Overlap(chosen[i], chosen[j]);
    }
    if k :| 0 <= k < |chosen| && chosen[k] == a {
      assert chosen == chosen[..k] + [a] + chosen[k + 1..];
      assert a !in chosen[..k] && a !in chosen[k + 1..];
    }
  }

  // ---------------------------------------------------------------- what the choice is

  /** No ASCII letter or digit touches another across either end of the stretch. */
  predicate Unglued(text: string, start: nat, end: nat)
    requires start < end <= |text|
  {
    var word := (c: char) => '0' <= c <= '9' || 'A' <= c <= 'Z' || 'a' <= c <= 'z';
    && (start > 0 ==> !(word(text[start - 1]) && word(text[start])))
    && (end < |text| ==> !(word(text[end - 1]) && word(text[end])))
  }

  lemma BoundariesAre(text: string, start: nat, end: nat, source: string)
    requires start < end <= |text| && text[start..end] == source
    ensures BoundariesOk(text, start, end, source) <==> Unglued(text, start, end)
  {
    assert source[0] == text[start] && source[|source| - 1] == text[end - 1];
  }

  /**
   Complete and maximal: wherever a surface stands in the text without being glued to a letter or
   digit, it is chosen or overlaps a chosen span that is longer, or as long and earlier in the
   dictionary, or of the same surface and further left.
   */
  lemma LongestWins(text: string, surfaces: seq<string>, selected: seq<Span>, order: nat, start: nat)
    requires IsSelection(text, surfaces, selected) && order < |surfaces| && surfaces[order] != ""
    requires start + |surfaces[order]| <= |text| && text[start..start + |surfaces[order]|] == surfaces[order]
    requires Unglued(text, start, start + |surfaces[order]|)
    ensures var n := |surfaces[order]|;
            exists t <- selected ::
              && t.start < start + n && start < t.end
              && (t.end - t.start > n
                  || (t.end - t.start == n && (t.order < order || (t.order == order && t.start <= start))))
  {
    var s := At(start, surfaces[order], order);
    BoundariesAre(text, start, start + |surfaces[order]|, surfaces[order]);
    hide BoundariesOk, Unglued;
    assert IsCandidate(text, surfaces, s);
    hide IsCandidate;
    if s in selected {
      assert Overlap(s, s);
    } else {
      assert Beaten(s, selected);
    }
  }

  /** What is chosen is a surface standing in the text, not glued to a letter or digit. */
  lemma ChosenStands(text: string, surfaces: seq<string>, selected: seq<Span>, t: Span)
    requires IsSelection(text, surfaces, selected) && t in selected
    ensures t.order < |surfaces| && t.start < t.end <= |text|
    ensures text[t.start..t.end] == t.source == surfaces[t.order] && Unglued(text, t.start, t.end)
  {
    hide BoundariesOk, Unglued;
    CandidateStands(text, surfaces, t);
    hide IsCandidate;
    BoundariesAre(text, t.start, t.end, t.source);
  }

  lemma CandidateStands(text: string, surfaces: seq<string>, t: Span)
    requires IsCandidate(text, surfaces, t)
    ensures t.order < |surfaces| && t.start <= t.end <= |text| && text[t.start..t.end] == t.source == surfaces[t.order]
    ensures t.source != "" && BoundariesOk(text, t.start, t.end, t.source)
  {
  }

  /** A span one selection makes, every selection makes: by precedence, the best span first. */
  lemma {:induction false} SelectionsAgree(text: string, surfaces: seq<string>, a: seq<Span>, b: seq<Span>, s: Span)
    requires IsSelection(text, surfaces, a) && IsSelection(text, surfaces, b) && s in a
    ensures s in b
    decreases |text| - (s.end - s.start), s.order, s.start
  {
    if s !in b {
      SelectedIs(text, surfaces, a, s);
      var t := BeatenBy(text, surfaces, b, s);
      SelectedIs(text, surfaces, b, t);
      hide IsSelection, Overlap, IsCandidate;
      SelectionsAgree(text, surfaces, b, a, t);
      SelectedApart(text, surfaces, a, s, t);
    }
  }

  lemma SelectedIs(text: string, surfaces: seq<string>, a: seq<Span>, s: Span)
    requires IsSelection(text, surfaces, a) && s in a
    ensures IsCandidate(text, surfaces, s) && 0 <= s.end - s.start <= |text|
  {
  }

  lemma BeatenBy(text: string, surfaces: seq<string>, b: seq<Span>, s: Span) returns (t: Span)
    requires IsSelection(text, surfaces, b) && IsCandidate(text, surfaces, s) && s !in b
    ensures t in b && Overlap(s, t) && Earlier(t, s)
  {
    assert Beaten(s, b);
    t :| t in b && Overlap(s, t) && Earlier(t, s);
  }

  lemma SelectedApart(text: string, surfaces: seq<string>, a: seq<Span>, s: Span, t: Span)
    requires IsSelection(text, surfaces, a) && s in a && t in a && Overlap(s, t)
    ensures s == t
  {
    var i :| 0 <= i < |a| && a[i] == s;
    var j :| 0 <= j < |a| && a[j] == t;
  }

  /** The dictionary and the text leave no freedom: there is only one selection. */
  lemma SelectionUnique(text: string, surfaces: seq<string>, a: seq<Span>, b: seq<Span>)
    requires IsSelection(text, surfaces, a) && IsSelection(text, surfaces, b)
    ensures a == b
  {
    forall s <- a ensures s in b { SelectionsAgree(text, surfaces, a, b, s); }
    forall s <- b ensures s in a { SelectionsAgree(text, surfaces, b, a, s); }
    assert forall k :: 0 <= k < |a| ==> a[k] in a;
    assert forall k :: 0 <= k < |b| ==> b[k] in b;
    SameSpansSameOrder(a, b);
  }

  ghost predicate LeftToRight(s: seq<Span>)
  {
    && (forall k :: 0 <= k < |s| ==> s[k].start < s[k].end)
    && (forall i, j :: 0 <= i < j < |s| ==> s[i].end <= s[j].start)
  }

  lemma {:induction false} SameSpansSameOrder(a: seq<Span>, b: seq<Span>)
    requires LeftToRight(a) && LeftToRight(b) && forall s: Span :: s in a <==> s in b
    ensures a == b
  {
    assert a != [] ==> a[0] in b;
    assert b != [] ==> b[0] in a;
    if a != [] {
      assert b[0] in a && a[0] in b;
      var i :| 0 <= i < |a| && a[i] == b[0];
      var j :| 0 <= j < |b| && b[j] == a[0];
      assert a[0] == b[0];
      forall s: Span ensures s in a[1..] <==> s in b[1..]
      {
        assert s in a <==> s == a[0] || s in a[1..];
        assert s in b <==> s == b[0] || s in b[1..];
      }
      SameSpansSameOrder(a[1..], b[1..]);
    }
  }
}
