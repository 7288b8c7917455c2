/** One name at a time replaced in a text: when the name found is the one meant, and what goes wrong if not. */
module Overlaps {
  import opened Text

  /** Names between double underscores that hold no other double underscore: they overlap by one or two at most. */
  predicate Framed(name: string)
  {
    && |name| >= 4 && name[0] == '_' && name[1] == '_' && name[|name| - 2] == '_' && name[|name| - 1] == '_'
    && forall i :: 0 < i < |name| - 2 ==> !(name[i] == '_' && name[i + 1] == '_')
  }

  /** Where the name found begins `shift` early, its official form reads the same either way. */
  predicate Commutes(name: string, official: string, shift: nat)
    requires shift <= |name|
  {
    official + name[|name| - shift..] == name[..shift] + official
  }

  /**
   The name stands once between `before` and `after`, found where it was put, or so little before
   that it makes no difference to its official form.
   */
  predicate StandsAlone(before: string, name: string, official: string, after: string)
    requires |name| > 0
  {
    var text := before + name + after;
    && Count(text, name) == 1
    && var at := Find(text, name, 0);
       at.Some? && at.value <= |before| <= at.value + |name| && Commutes(name, official, |before| - at.value)
  }

  /** A name found once is replaced there and nowhere else. */
  lemma ReplaceOnce(text: string, name: string, official: string)
    requires |name| > 0 && Count(text, name) == 1
    ensures var at := Find(text, name, 0);
            at.Some? && Replace(text, name, official) == text[..at.value] + official + text[at.value + |name|..]
  {
    var at := Find(text, name, 0).value;
    assert CountFrom(text, name, at + |name|) == 0;
    assert Find(text, name, at + |name|).None?;
    assert ReplaceFrom(text, name, official, at + |name|) == text[at + |name|..];
    assert text[0..at] == text[..at];
  }

  /** The one found begins where the name was put, or overlaps it from before. */
  lemma FoundNoLater(before: string, name: string, after: string)
    requires |name| > 0 && Count(before + name + after, name) == 1
    ensures var at := Find(before + name + after, name, 0);
            at.Some? && at.value <= |before| < at.value + |name|
  {
    var text := before + name + after;
    assert OccursAt(text, name, |before|);
    var at := Find(text, name, 0).value;
    if at + |name| <= |before| { TwoOccurrences(text, name, at, |before|); }
  }

  /** What an occurrence that begins `shift` before the name's place says of the name and the text. */
  lemma OverlapShape(before: string, name: string, after: string, shift: nat)
    requires shift <= |before| && shift < |name| && OccursAt(before + name + after, name, |before| - shift)
    ensures name[shift..] == name[..|name| - shift]
    ensures before[|before| - shift..] == name[..shift]
  {
    var text, at := before + name + after, |before| - shift;
    assert text[at..at + |name|] == name && text[|before|..|before| + |name|] == name;
    assert name[..shift] == text[at..at + |name|][..shift] == text[at..|before|] == before[at..];
    assert name[shift..] == text[at..at + |name|][shift..] == text[|before|..at + |name|];
    assert name[..|name| - shift] == text[|before|..|before| + |name|][..|name| - shift] == text[|before|..at + |name|];
  }

  lemma SplitEarly(before: string, name: string, after: string, shift: nat)
    requires shift <= |before| && shift <= |name|
    ensures var text, at := before + name + after, |before| - shift;
            text[..at] == before[..at] && text[at + |name|..] == name[|name| - shift..] + after
  {
    var text, at := before + name + after, |before| - shift;
    assert text == (before + name) + after;
    assert text[at + |name|..] == (before + name)[at + |name|..] + after;
  }

  /** What replacing does when the name found begins `shift` early. */
  lemma ReplaceShifted(before: string, name: string, official: string, after: string) returns (shift: nat)
    requires |name| > 0 && Count(before + name + after, name) == 1
    ensures shift <= |before| && shift < |name| && name[shift..] == name[..|name| - shift]
    ensures before == before[..|before| - shift] + name[..shift]
    ensures Replace(before + name + after, name, official)
            == (before[..|before| - shift] + official + name[|name| - shift..]) + after
    ensures StandsAlone(before, name, official, after) <==> Commutes(name, official, shift)
  {
    hide Count, Replace, Commutes;
    FoundNoLater(before, name, after);
    ReplaceOnce(before + name + after, name, official);
    var at := Find(before + name + after, name, 0).value;
    shift := |before| - at;
    OverlapShape(before, name, after, shift);
    SplitEarly(before, name, after, shift);
  }

  /** Framed names overlap by two characters at most. */
  lemma Border(name: string, shift: nat)
    requires Framed(name) && 0 < shift < |name| && name[shift..] == name[..|name| - shift]
    ensures shift >= |name| - 2
  {
    forall i | 0 <= i < |name| - shift ensures name[shift + i] == name[i]
    {
      assert name[shift..][i] == name[..|name| - shift][i];
    }
  }

  // ---------------------------------------------------------------- a text that went wrong stays wrong

  /** Two different texts of one length, alike after a double underscore in the first. */
  ghost predicate Astray(q: string, p: string)
  {
    |q| == |p| && q != p && exists m: nat :: LeftOver(q, p, m)
  }

  predicate LeftOver(q: string, p: string, m: nat)
    requires |q| == |p|
  {
    m + 2 <= |q| && q[m] == '_' && q[m + 1] == '_' && q[m + 2..] == p[m + 2..]
  }

  lemma AstrayStays(q: string, p: string, more: string)
    requires Astray(q, p)
    ensures Astray(q + more, p + more)
  {
    var m: nat :| LeftOver(q, p, m);
    assert (q + more)[m + 2..] == q[m + 2..] + more && (p + more)[m + 2..] == p[m + 2..] + more;
    assert LeftOver(q + more, p + more, m);
    assert (q + more)[..|q|] == q && (p + more)[..|p|] == p;
  }

  /** A replacement that ends on the name's own last characters differs from the right one, or is it. */
  lemma EndsAstray(q: string, p: string)
    requires |q| == |p| >= 2 && q != p && q[|q| - 2] == '_' && q[|q| - 1] == '_'
    ensures Astray(q, p)
  {
    assert LeftOver(q, p, |q| - 2);
  }

  lemma NoShift(name: string, official: string)
    ensures Commutes(name, official, 0)
  {
    assert official + name[|name|..] == official == name[..0] + official;
  }

  /** The first replacement that goes wrong. */
  lemma GoesAstray(before: string, name: string, official: string, shift: nat)
    requires Framed(name) && shift <= |before| && shift < |name| && name[shift..] == name[..|name| - shift]
    requires before == before[..|before| - shift] + name[..shift] && !Commutes(name, official, shift)
    ensures Astray(before[..|before| - shift] + official + name[|name| - shift..], before + official)
  {
    var head := before[..|before| - shift];
    NoShift(name, official);
    if shift != 0 {
      Border(name, shift);
      var q, p := head + official + name[|name| - shift..], before + official;
      assert q == head + (official + name[|name| - shift..]) && p == head + (name[..shift] + official);
      assert q[|head|..] == official + name[|name| - shift..] && p[|head|..] == name[..shift] + official;
      assert q[|q| - 2] == name[|name| - 2] && q[|q| - 1] == name[|name| - 1];
      EndsAstray(q, p);
    }
  }

  /** The characters of a framed name's two ends are the same. */
  lemma SameEnds(name: string, shift: nat)
    requires shift <= |name| && name[shift..] == name[..|name| - shift]
    ensures multiset(name[..shift]) == multiset(name[|name| - shift..])
  {
    assert name == name[..shift] + name[shift..] && name == name[..|name| - shift] + name[|name| - shift..];
    assert multiset(name) == multiset(name[..shift]) + multiset(name[shift..]);
    assert multiset(name) == multiset(name[..|name| - shift]) + multiset(name[|name| - shift..]);
    Cancel(multiset(name[..shift]), multiset(name[|name| - shift..]), multiset(name[shift..]));
  }

  lemma Cancel(a: multiset<char>, b: multiset<char>, c: multiset<char>)
    requires a + c == b + c
    ensures a == b
  {
    forall x ensures a[x] == b[x] { assert (a + c)[x] == (b + c)[x]; }
  }

  /** Two stretches with the same characters and, but for underscores at the start, the same end are the same. */
  lemma SameButStart(u: string, x: string, k: nat)
    requires k <= |u| == |x| && u[k..] == x[k..] && multiset(u) == multiset(x)
    requires forall i :: 0 <= i < k ==> u[i] == '_'
    ensures u == x
  {
    assert u == u[..k] + u[k..] && x == x[..k] + x[k..];
    assert multiset(u) == multiset(u[..k]) + multiset(u[k..]) && multiset(x) == multiset(x[..k]) + multiset(x[k..]);
    Cancel(multiset(u[..k]), multiset(x[..k]), multiset(u[k..]));
    forall i | 0 <= i < k ensures x[i] == '_'
    {
      assert x[i] in multiset(x[..k]) by { assert x[i] in x[..k]; }
      assert x[i] in u[..k];
    }
  }

  /** A further replacement off its place does not put right what went wrong before. */
  lemma AstrayAgain(q: string, p: string, name: string, official: string, shift: nat)
    requires Astray(q, p) && Framed(name) && 0 < shift < |name| && name[shift..] == name[..|name| - shift]
    requires shift <= |q| && q == q[..|q| - shift] + name[..shift]
    ensures Astray(q[..|q| - shift] + official + name[|name| - shift..], p + official)
  {
    Border(name, shift);
    var made := q[..|q| - shift] + official + name[|name| - shift..];
    assert made[|made| - 2] == name[|name| - 2] && made[|made| - 1] == name[|name| - 1];
    var m: nat :| LeftOver(q, p, m);
    assert made != p + official by {
      if made == p + official { MeetOnlyIfSame(q, p, m, name, official, shift); }
    }
    EndsAstray(made, p + official);
  }

  lemma MeetOnlyIfSame(q: string, p: string, m: nat, name: string, official: string, shift: nat)
    requires |q| == |p| && LeftOver(q, p, m) && Framed(name) && |name| - 2 <= shift < |name|
    requires name[shift..] == name[..|name| - shift] && shift <= |q| && q == q[..|q| - shift] + name[..shift]
    requires q[..|q| - shift] + official + name[|name| - shift..] == p + official
    ensures q == p
  {
    var head, u := q[..|q| - shift], name[..shift];
    var x := p[|head|..];
    SameCharacters(head, official, name[|name| - shift..], p);
    SameEnds(name, shift);
    AlikeFrom(q, p, m, name, shift);
    var k := if m + 2 <= |head| then 0 else m + 2 - |head|;
    assert u[k..] == q[|head| + k..] && x[k..] == p[|head| + k..];
    SameButStart(u, x, k);
    assert q == head + u && p == head + x;
  }

  lemma SameCharacters(head: string, official: string, v: string, p: string)
    requires head + official + v == p + official
    ensures |p| >= |head| && p[..|head|] == head && multiset(p[|head|..]) == multiset(v)
  {
    var made, x := head + official + v, p[|head|..];
    assert made[..|head|] == head && (p + official)[..|head|] == p[..|head|];
    assert made[|head|..] == official + v && (p + official)[|head|..] == x + official;
    assert multiset(official + v) == multiset(v) + multiset(official);
    assert multiset(x + official) == multiset(x) + multiset(official);
    Cancel(multiset(x), multiset(v), multiset(official));
  }

  /** The double underscore that was left over can only be at the start of the stretch that spells the name. */
  lemma AlikeFrom(q: string, p: string, m: nat, name: string, shift: nat)
    requires |q| == |p| && LeftOver(q, p, m) && Framed(name) && |name| - 2 <= shift < |name| && shift <= |q|
    requires q == q[..|q| - shift] + name[..shift]
    ensures var from := |q| - shift;
            var k := if m + 2 <= from then 0 else m + 2 - from;
            && k <= shift && q[from + k..] == p[from + k..]
            && forall i :: 0 <= i < k ==> name[i] == '_'
  {
    var from := |q| - shift;
    if m + 2 <= from {
      assert q[from..] == q[m + 2..][from - m - 2..] && p[from..] == p[m + 2..][from - m - 2..];
    } else {
      var k := m + 2 - from;
      assert name[k - 1] == q[m + 1];
      if k >= 2 { assert name[k - 2] == q[m]; }
    }
  }
}
