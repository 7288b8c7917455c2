/** Comparing two term databases: what was added, removed and changed, as a patch from one to the other. */
module TermsDiff {
  import Sorting

  /** A source key: where a term comes from. */
  datatype Key = Key(category: string, file: string, id: string, textKey: string)

  datatype Term = Term(key: Key, zh: string, en: string)

  datatype Pair = Pair(zh: string, en: string)

  function PairOf(t: Term): Pair { Pair(t.zh, t.en) }

  datatype Changed = Changed(key: Key, before: Term, after: Term)

  datatype Report = Report(added: seq<Term>, removed: seq<Term>, changed: seq<Changed>, ambiguous: set<Key>)

  /** The rows of one source key, in order. */
  function Group(terms: seq<Term>, k: Key): seq<Term>
  {
    if terms == [] then []
    else Group(terms[..|terms| - 1], k) + (if terms[|terms| - 1].key == k then [terms[|terms| - 1]] else [])
  }

  lemma {:induction false} GroupHas(terms: seq<Term>, k: Key)
    ensures forall t :: t in Group(terms, k) <==> t in terms && t.key == k
  {
    if terms != [] {
      var n := |terms| - 1;
      GroupHas(terms[..n], k);
      assert terms == terms[..n] + [terms[n]];
    }
  }

  /** No row occurs more often in `a` than in `b`. */
  ghost predicate AtMost(a: seq<Term>, b: seq<Term>) { forall t :: multiset(a)[t] <= multiset(b)[t] }

  lemma {:induction false} GroupAtMost(terms: seq<Term>, k: Key)
    ensures AtMost(Group(terms, k), terms)
  {
    if terms != [] {
      var n := |terms| - 1;
      GroupAtMost(terms[..n], k);
      assert terms == terms[..n] + [terms[n]];
      forall t ensures multiset(Group(terms, k))[t] <= multiset(terms)[t]
      {
        assert multiset(Group(terms[..n], k))[t] <= multiset(terms[..n])[t];
      }
    }
  }

  lemma GroupSnoc(terms: seq<Term>, t: Term, k: Key)
    ensures Group(terms + [t], k) == Group(terms, k) + (if t.key == k then [t] else [])
  {
    assert (terms + [t])[..|terms|] == terms;
  }

  /** `_source_map`. */
  method SourceMap(terms: seq<Term>) returns (m: map<Key, seq<Term>>)
    ensures Mapped(terms, m)
  {
    m := map[];
    NothingGrouped();
    hide Group;
    assert Mapped([], m);
    hide Mapped;
    for n := 0 to |terms|
      invariant Mapped(terms[..n], m)
    {
      var t := terms[n];
      assert terms[..n + 1] == terms[..n] + [t];
      MappedMore(terms[..n], m, t);
      m := m[t.key := (if t.key in m then m[t.key] else []) + [t]];
    }
    assert terms[..|terms|] == terms;
  }

  ghost predicate Mapped(terms: seq<Term>, m: map<Key, seq<Term>>)
  {
    && (forall k :: (if k in m then m[k] else []) == Group(terms, k))
    && m.Keys == (set t <- terms :: t.key)
  }

  lemma MappedMore(terms: seq<Term>, m: map<Key, seq<Term>>, t: Term)
    requires Mapped(terms, m)
    ensures Mapped(terms + [t], m[t.key := (if t.key in m then m[t.key] else []) + [t]])
  {
    hide Group;
    forall k ensures Group(terms + [t], k) == Group(terms, k) + (if t.key == k then [t] else []) { GroupSnoc(terms, t, k); }
    assert (set x <- terms + [t] :: x.key) == (set x <- terms :: x.key) + {t.key};
  }

  lemma NothingGrouped()
    ensures forall k :: Group([], k) == []
  {
  }

  /** `_pair_lookup`: the rows of one key by their pair. */
  method PairLookup(rows: seq<Term>) returns (m: map<Pair, Term>)
    ensures forall p :: p in m <==> exists t <- rows :: PairOf(t) == p
    ensures forall p <- m.Keys :: m[p] in rows && PairOf(m[p]) == p
  {
    m := map[];
    for n := 0 to |rows|
      invariant forall p :: p in m <==> exists t <- rows[..n] :: PairOf(t) == p
      invariant forall p <- m.Keys :: m[p] in rows[..n] && PairOf(m[p]) == p
    {
      assert rows[..n + 1] == rows[..n] + [rows[n]];
      m := m[PairOf(rows[n]) := rows[n]];
    }
    assert rows[..|rows|] == rows;
  }

  predicate OneKey(rows: seq<Term>, k: Key) { forall t <- rows :: t.key == k }

  /** The rows of one lookup whose pair the other lacks. */
  method Missing(here: seq<Term>, there: seq<Term>, ghost k: Key) returns (r: seq<Term>)
    requires OneKey(here, k) && OneKey(there, k)
    ensures forall t :: t in r <==> t in here && t !in there
    ensures AtMost(r, here)
  {
    var mine := PairLookup(here);
    var theirs := PairLookup(there);
    var pairs := mine.Keys - theirs.Keys;
    ghost var all := pairs;
    r := [];
    while exists p :: p in pairs
      invariant pairs <= all
      invariant forall t :: t in r <==> exists p <- all - pairs :: mine[p] == t
      invariant forall t :: multiset(r)[t] <= (if PairOf(t) in all - pairs then 1 else 0)
      decreases pairs
    {
      var p :| p in pairs;
      r := r + [mine[p]];
      pairs := pairs - {p};
    }
    assert pairs == {};
    MissingIs(here, there, k, mine, theirs, r);
  }

  /** With one key on both sides, a missing pair is a missing row. */
  lemma MissingIs(here: seq<Term>, there: seq<Term>, k: Key, mine: map<Pair, Term>, theirs: map<Pair, Term>,
          r: seq<Term>)
    requires OneKey(here, k) && OneKey(there, k)
    requires (forall p :: p in mine <==> exists t <- here :: PairOf(t) == p)
        && (forall p <- mine.Keys :: mine[p] in here && PairOf(mine[p]) == p)
    requires (forall p :: p in theirs <==> exists t <- there :: PairOf(t) == p)
        && (forall p <- theirs.Keys :: theirs[p] in there && PairOf(theirs[p]) == p)
    requires forall t :: t in r <==> exists p <- mine.Keys - theirs.Keys :: mine[p] == t
    requires forall t :: multiset(r)[t] <= 1
    ensures (forall t :: t in r <==> t in here && t !in there) && AtMost(r, here)
  {
    var all := mine.Keys - theirs.Keys;
    forall t | t in r ensures t in here && t !in there
    {
      var p :| p in all && mine[p] == t;
      assert t in there ==> PairOf(t) in theirs;
    }
    forall t | t in here && t !in there ensures t in r
    {
      var p := PairOf(t);
      assert p in mine && mine[p] == t;
      assert forall q <- theirs.Keys :: theirs[q] != t && theirs[q].key == k;
      assert p !in theirs;
      assert p in all;
    }
    forall t ensures multiset(r)[t] <= multiset(here)[t]
    {
      if multiset(r)[t] > 0 { assert t in r && t in here; }
    }
  }

  // ---------------------------------------------------------------- what the diff is

  /** A key with exactly one row on each side. */
  predicate Single(before: seq<Term>, after: seq<Term>, k: Key)
  {
    |Group(before, k)| == 1 && |Group(after, k)| == 1
  }

  ghost predicate IsChanged(before: seq<Term>, after: seq<Term>, c: Changed)
  {
    && Single(before, after, c.key) && c.before != c.after
    && Group(before, c.key) == [c.before] && Group(after, c.key) == [c.after]
  }

  ghost predicate IsAmbiguous(before: seq<Term>, after: seq<Term>, k: Key)
  {
    && |Group(before, k)| > 1 && |Group(after, k)| > 1
    && multiset(Group(before, k)) != multiset(Group(after, k))
  }

  /** The report on the source keys in `keys`. */
  ghost predicate Covers(before: seq<Term>, after: seq<Term>, keys: set<Key>, r: Report)
  {
    && (forall t :: t in r.added <==> t in after && t !in before && t.key in keys && !Single(before, after, t.key))
    && (forall t :: t in r.removed <==> t in before && t !in after && t.key in keys && !Single(before, after, t.key))
    && AtMost(r.added, after) && AtMost(r.removed, before)
    && (forall c :: c in r.changed <==> c.key in keys && IsChanged(before, after, c))
    && (forall i, j :: 0 <= i < j < |r.changed| ==> r.changed[i].key != r.changed[j].key)
    && (forall k :: k in r.ambiguous <==> k in keys && IsAmbiguous(before, after, k))
  }

  ghost predicate IsDiff(before: seq<Term>, after: seq<Term>, r: Report)
  {
    Covers(before, after, (set t <- before + after :: t.key), r)
  }

  /** One source key's share of the report. */
  datatype Share = Share(added: seq<Term>, removed: seq<Term>, changed: seq<Changed>, ambiguous: bool)

  ghost predicate IsShare(k: Key, olds: seq<Term>, news: seq<Term>, s: Share)
  {
    && (forall t :: t in s.added <==> t in news && t !in olds && !(|olds| == 1 && |news| == 1))
    && (forall t :: t in s.removed <==> t in olds && t !in news && !(|olds| == 1 && |news| == 1))
    && AtMost(s.added, news) && AtMost(s.removed, olds)
    && (s.changed == if |olds| == 1 && |news| == 1 && olds[0] != news[0] then [Changed(k, olds[0], news[0])] else [])
    && (s.ambiguous <==> |olds| > 1 && |news| > 1 && multiset(olds) != multiset(news))
  }

  /** The body of the loop over source keys. */
  method DiffKey(k: Key, olds: seq<Term>, news: seq<Term>) returns (s: Share)
    requires OneKey(olds, k) && OneKey(news, k)
    ensures IsShare(k, olds, news, s)
  {
    if olds == [] { return Share(news, [], [], false); }
    if news == [] { return Share([], olds, [], false); }
    if |olds| == 1 && |news| == 1 {
      assert olds[0] in olds && news[0] in news;
      return Share([], [], if PairOf(olds[0]) != PairOf(news[0]) then [Changed(k, olds[0], news[0])] else [], false);
    }
    if multiset(olds) == multiset(news) {
      SameRows(olds, news);
      return Share([], [], [], false);
    }
    var added := Missing(news, olds, k);
    var removed := Missing(olds, news, k);
    s := Share(added, removed, [], |olds| > 1 && |news| > 1);
  }

  /** Adding one key's share. */
  lemma CoversMore(before: seq<Term>, after: seq<Term>, keys: set<Key>, r: Report, k: Key, s: Share)
    requires Covers(before, after, keys, r) && k !in keys && IsShare(k, Group(before, k), Group(after, k), s)
    ensures Covers(before, after, keys + {k},
                   Report(r.added + s.added, r.removed + s.removed, r.changed + s.changed, r.ambiguous + (if s.ambiguous then {k} else {})))
  {
    hide Group, IsChanged, AtMost;
    GroupHas(before, k);
    GroupHas(after, k);
    ShareAtMost(r.added, s.added, after, k);
    ShareAtMost(r.removed, s.removed, before, k);
    var changed := r.changed + s.changed;
    forall c ensures c in changed <==> c.key in keys + {k} && IsChanged(before, after, c)
    {
      if c.key == k { ShareChange(before, after, k, s, c); }
    }
    forall i, j | 0 <= i < j < |changed| ensures changed[i].key != changed[j].key
    {
      if j >= |r.changed| { assert changed[i] in r.changed; }
    }
  }

  /** Rows of a new key do not add to the multiplicity of the others. */
  lemma ShareAtMost(listed: seq<Term>, share: seq<Term>, rows: seq<Term>, k: Key)
    requires AtMost(listed, rows) && AtMost(share, Group(rows, k))
    requires (forall t <- listed :: t.key != k) && forall t <- share :: t.key == k
    ensures AtMost(listed + share, rows)
  {
    GroupAtMost(rows, k);
    hide Group;
    forall t ensures multiset(listed + share)[t] <= multiset(rows)[t]
    {
      assert multiset(listed + share)[t] == multiset(listed)[t] + multiset(share)[t];
      assert t.key == k ==> t !in listed;
      assert t.key != k ==> t !in share;
      assert multiset(share)[t] <= multiset(Group(rows, k))[t] <= multiset(rows)[t];
    }
  }

  lemma ShareChange(before: seq<Term>, after: seq<Term>, k: Key, s: Share, c: Changed)
    requires IsShare(k, Group(before, k), Group(after, k), s) && c.key == k
    ensures IsChanged(before, after, c) <==> c in s.changed
  {
    hide Group;
  }

  lemma SameRows(a: seq<Term>, b: seq<Term>)
    requires multiset(a) == multiset(b)
    ensures |a| == |b| && forall t :: t in a <==> t in b
  {
    assert |multiset(a)| == |a| && |multiset(b)| == |b|;
    forall t ensures t in a <==> t in b { assert t in a <==> t in multiset(a); assert t in b <==> t in multiset(b); }
  }

  /** `diff_snapshots`, key by key. */
  method DiffSnapshots(before: seq<Term>, after: seq<Term>) returns (r: Report)
    ensures IsDiff(before, after, r)
  {
    hide Group, IsChanged, IsAmbiguous, IsShare, Covers;
    var oldBySource := SourceMap(before);
    var newBySource := SourceMap(after);
    var keys := oldBySource.Keys + newBySource.Keys;
    ghost var done: set<Key> := {};
    r := Report([], [], [], {});
    NothingCovered(before, after);
    assert keys == set t <- before + after :: t.key;
    while exists k :: k in keys
      invariant Covers(before, after, done, r) && done !! keys
      invariant done + keys == set t <- before + after :: t.key
      decreases keys
    {
      var k :| k in keys;
      GroupHas(before, k);
      GroupHas(after, k);
      var s := DiffKey(k, if k in oldBySource then oldBySource[k] else [],
          if k in newBySource then newBySource[k] else []);
      CoversMore(before, after, done, r, k, s);
      r := Report(r.added + s.added, r.removed + s.removed, r.changed + s.changed,
          r.ambiguous + (if s.ambiguous then {k} else {}));
      done, keys := done + {k}, keys - {k};
    }
    assert keys == {};
    assert done == set t <- before + after :: t.key;
  }

  /** Row `i` is the only one of its source key. */
  ghost predicate OnlyRow(rows: seq<Term>, i: nat, k: Key)
  {
    i < |rows| && rows[i].key == k && forall x :: 0 <= x < |rows| && x != i ==> rows[x].key != k
  }

  lemma LastIsOnly(front: seq<Term>, last: Term, t: Term)
    ensures front + [last] == [t] <==> front == [] && last == t
  {
    assert |front + [last]| == |front| + 1;
    if front + [last] == [t] { assert (front + [last])[|front|] == last; }
  }

  lemma {:induction false} GroupOfOne(rows: seq<Term>, k: Key, t: Term)
    ensures Group(rows, k) == [t] <==> exists i: nat :: OnlyRow(rows, i, k) && rows[i] == t
  {
    if rows != [] {
      var n := |rows| - 1;
      var front, last := rows[..n], rows[n];
      assert rows == front + [last];
      GroupOfOne(front, k, t);
      GroupHas(front, k);
      if last.key == k {
        assert Group(rows, k) == Group(front, k) + [last];
        LastIsOnly(Group(front, k), last, t);
        assert Group(front, k) == [] <==> forall x :: 0 <= x < n ==> front[x].key != k by {
          if Group(front, k) != [] { assert Group(front, k)[0] in Group(front, k); }
          forall x | 0 <= x < n && front[x].key == k ensures front[x] in Group(front, k) {}
        }
        if Group(rows, k) == [t] { assert OnlyRow(rows, n, k); }
      } else {
        forall i: nat ensures OnlyRow(rows, i, k) <==> OnlyRow(front, i, k) {
          assert forall x :: 0 <= x < n ==> rows[x] == front[x];
        }
      }
    }
  }

  /** A change is reported exactly for a key with one row on each side, and rows that differ. */
  lemma ChangedMeans(before: seq<Term>, after: seq<Term>, r: Report, c: Changed)
    requires IsDiff(before, after, r)
    ensures c in r.changed <==>
              && c.before != c.after
              && (exists i: nat :: OnlyRow(before, i, c.key) && before[i] == c.before)
              && (exists j: nat :: OnlyRow(after, j, c.key) && after[j] == c.after)
  {
    hide Group;
    GroupOfOne(before, c.key, c.before);
    GroupOfOne(after, c.key, c.after);
    if i: nat :| OnlyRow(before, i, c.key) && before[i] == c.before { assert before[i] in before + after; }
  }

  lemma {:induction false} GroupCounts(rows: seq<Term>, k: Key)
    ensures forall t :: multiset(Group(rows, k))[t] == if t.key == k then multiset(rows)[t] else 0
  {
    if rows != [] {
      var n := |rows| - 1;
      assert rows == rows[..n] + [rows[n]];
      GroupCounts(rows[..n], k);
    }
  }

  /** The key has at least two rows. */
  ghost predicate TwoRows(rows: seq<Term>, k: Key)
  {
    exists i, j :: 0 <= i < j < |rows| && rows[i].key == k && rows[j].key == k
  }

  lemma {:induction false} GroupsOne(rows: seq<Term>, k: Key) returns (i: nat)
    requires |Group(rows, k)| > 0
    ensures i < |rows| && rows[i].key == k
  {
    i := |rows| - 1;
    if rows[i].key != k { i := GroupsOne(rows[..i], k); }
  }

  lemma {:induction false} GroupsTwo(rows: seq<Term>, k: Key) returns (i: nat, j: nat)
    requires |Group(rows, k)| > 1
    ensures i < j < |rows| && rows[i].key == k && rows[j].key == k
  {
    j := |rows| - 1;
    if rows[j].key == k {
      i := GroupsOne(rows[..j], k);
    } else {
      i, j := GroupsTwo(rows[..j], k);
    }
  }

  lemma {:induction false} GroupedTwice(rows: seq<Term>, k: Key, i: nat, j: nat)
    requires i < j < |rows| && rows[i].key == k && rows[j].key == k
    ensures |Group(rows, k)| > 1
  {
    var n := |rows| - 1;
    if j < n {
      GroupedTwice(rows[..n], k, i, j);
    } else {
      GroupHas(rows[..n], k);
      assert rows[..n][i] in Group(rows[..n], k);
    }
  }

  lemma GroupOfTwo(rows: seq<Term>, k: Key)
    ensures |Group(rows, k)| > 1 <==> TwoRows(rows, k)
  {
    hide Group;
    if |Group(rows, k)| > 1 { var _, _ := GroupsTwo(rows, k); }
    if TwoRows(rows, k) {
      var i: nat, j: nat :| i < j < |rows| && rows[i].key == k && rows[j].key == k;
      GroupedTwice(rows, k, i, j);
    }
  }

  /** A key is ambiguous exactly when it has several rows on both sides and not the same ones. */
  lemma AmbiguousMeans(before: seq<Term>, after: seq<Term>, r: Report, k: Key)
    requires IsDiff(before, after, r)
    ensures k in r.ambiguous <==>
              TwoRows(before, k) && TwoRows(after, k)
                  && exists t: Term :: t.key == k && multiset(before)[t] != multiset(after)[t]
  {
    hide Group, TwoRows, IsChanged, AtMost;
    GroupOfTwo(before, k);
    GroupOfTwo(after, k);
    GroupsDiffer(before, after, k);
    if TwoRows(before, k) {
      var i, _ := GroupsTwo(before, k);
      assert before[i] in before + after;
    }
  }

  lemma GroupsDiffer(before: seq<Term>, after: seq<Term>, k: Key)
    ensures multiset(Group(before, k)) != multiset(Group(after, k))
        <==> exists t: Term :: t.key == k && multiset(before)[t] != multiset(after)[t]
  {
    hide Group;
    GroupCounts(before, k);
    GroupCounts(after, k);
    if multiset(Group(before, k)) != multiset(Group(after, k)) {
      var t :| multiset(Group(before, k))[t] != multiset(Group(after, k))[t];
    }
  }

  lemma NothingCovered(before: seq<Term>, after: seq<Term>)
    ensures Covers(before, after, {}, Report([], [], [], {}))
  {
  }

  // ---------------------------------------------------------------- the diff is a patch

  function Rows(terms: seq<Term>): set<Term> { set t <- terms }

  function Befores(changed: seq<Changed>): set<Term> { set c <- changed :: c.before }

  function Afters(changed: seq<Changed>): set<Term> { set c <- changed :: c.after }

  /** A row whose key is single on both sides is the row of that key. */
  lemma SingleRow(before: seq<Term>, after: seq<Term>, k: Key)
    requires Single(before, after, k)
    ensures forall t: Term :: t.key == k ==> (t in before <==> t == Group(before, k)[0]) && (t in after <==> t == Group(after, k)[0])
  {
    hide Group;
    GroupHas(before, k);
    GroupHas(after, k);
    var a, b := Group(before, k), Group(after, k);
    assert a == [a[0]] && b == [b[0]];
    forall t: Term | t.key == k ensures (t in before <==> t == a[0]) && (t in after <==> t == b[0])
    {
      assert t in a <==> t in before;
      assert t in b <==> t in after;
    }
  }

  /** What is gained is what was added or changed to, and what is lost what was removed or changed from. */
  lemma GainsAndLosses(before: seq<Term>, after: seq<Term>, r: Report)
    requires IsDiff(before, after, r)
    ensures Rows(r.added) + Afters(r.changed) == Rows(after) - Rows(before)
    ensures Rows(r.removed) + Befores(r.changed) == Rows(before) - Rows(after)
    ensures Rows(r.added) !! Afters(r.changed) && Rows(r.removed) !! Befores(r.changed)
  {
    hide Group;
    var keys := set t <- before + after :: t.key;
    forall c <- r.changed
      ensures c.after in after && c.after !in before && c.before in before && c.before !in after
      ensures c.after !in r.added && c.before !in r.removed
    {
      assert IsChanged(before, after, c);
      GroupHas(before, c.key);
      GroupHas(after, c.key);
      assert c.before in Group(before, c.key) && c.after in Group(after, c.key);
      SingleRow(before, after, c.key);
    }
    forall t: Term | t in after && t !in before && t !in r.added ensures t in Afters(r.changed)
    {
      assert t in before + after && t.key in keys;
      SingleRow(before, after, t.key);
      var c := Changed(t.key, Group(before, t.key)[0], t);
      GroupHas(before, t.key);
      assert c.before in Group(before, t.key);
      assert IsChanged(before, after, c) by { SingleGroups(before, after, t.key); }
      assert c in r.changed;
    }
    forall t: Term | t in before && t !in after && t !in r.removed ensures t in Befores(r.changed)
    {
      assert t in before + after && t.key in keys;
      SingleRow(before, after, t.key);
      var c := Changed(t.key, t, Group(after, t.key)[0]);
      GroupHas(after, t.key);
      assert c.after in Group(after, t.key);
      assert IsChanged(before, after, c) by { SingleGroups(before, after, t.key); }
      assert c in r.changed;
    }
  }

  lemma SingleGroups(before: seq<Term>, after: seq<Term>, k: Key)
    requires Single(before, after, k)
    ensures Group(before, k) == [Group(before, k)[0]] && Group(after, k) == [Group(after, k)[0]]
  {
  }

  /** Taking out what was removed and changed from, and putting in what was added and changed to, gives the new rows. */
  lemma DiffIsPatch(before: seq<Term>, after: seq<Term>, r: Report)
    requires IsDiff(before, after, r)
    ensures Rows(before) - Rows(r.removed) - Befores(r.changed) + Rows(r.added) + Afters(r.changed) == Rows(after)
    ensures Rows(r.added) !! Rows(r.removed)
    ensures Rows(r.removed) <= Rows(before) && Rows(r.added) <= Rows(after)
  {
    hide IsDiff;
    GainsAndLosses(before, after, r);
  }

  /** Identical rows, whatever their order, give an empty diff, and only they do. */
  lemma EmptyDiff(before: seq<Term>, after: seq<Term>, r: Report)
    requires IsDiff(before, after, r)
    ensures r.added == [] && r.removed == [] && r.changed == [] <==> Rows(before) == Rows(after)
  {
    GainsAndLosses(before, after, r);
    hide IsDiff;
    assert r.added != [] ==> r.added[0] in Rows(r.added);
    assert r.removed != [] ==> r.removed[0] in Rows(r.removed);
    assert r.changed != [] ==> r.changed[0].after in Afters(r.changed);
    assert r.added == [] && r.changed == []
        ==> Rows(r.added) == {} && Afters(r.changed) == {} && Befores(r.changed) == {};
    assert r.removed == [] ==> Rows(r.removed) == {};
  }

  // ---------------------------------------------------------------- counts by category

  function OfCategory(terms: set<Term>, category: string): set<Term> { set t <- terms | t.key.category == category }

  lemma {:induction false} ChangesBalance(changed: seq<Changed>, category: string)
    requires forall c <- changed :: c.before.key == c.key && c.after.key == c.key
    requires forall i, j :: 0 <= i < j < |changed| ==> changed[i].key != changed[j].key
    ensures |OfCategory(Befores(changed), category)| == |OfCategory(Afters(changed), category)|
  {
    hide OfCategory, Befores, Afters;
    if changed == [] {
      NothingChanged(category);
    } else {
      var n := |changed| - 1;
      var front, c := changed[..n], changed[n];
      assert changed == front + [c] && c in changed && forall x <- front :: x in changed;
      ChangesBalance(front, category);
      forall x <- front ensures x.before != c.before && x.after != c.after
      {
        var i :| 0 <= i < n && changed[i] == x;
      }
      OneMoreChange(front, c);
      OneMoreRow(Befores(front), c.before, category);
      OneMoreRow(Afters(front), c.after, category);
    }
  }

  lemma NothingChanged(category: string)
    ensures OfCategory(Befores([]), category) == {} && OfCategory(Afters([]), category) == {}
  {
  }

  lemma OneMoreChange(front: seq<Changed>, c: Changed)
    requires forall x <- front :: x.before != c.before && x.after != c.after
    ensures Befores(front + [c]) == Befores(front) + {c.before} && c.before !in Befores(front)
    ensures Afters(front + [c]) == Afters(front) + {c.after} && c.after !in Afters(front)
  {
  }

  lemma OneMoreRow(terms: set<Term>, t: Term, category: string)
    requires t !in terms
    ensures |OfCategory(terms + {t}, category)|
        == |OfCategory(terms, category)| + (if t.key.category == category then 1 else 0)
  {
    if t.key.category == category {
      assert OfCategory(terms + {t}, category) == OfCategory(terms, category) + {t};
    } else {
      assert OfCategory(terms + {t}, category) == OfCategory(terms, category);
    }
  }

  lemma DisjointSizes(a: set<Term>, b: set<Term>)
    requires a !! b
    ensures |a + b| == |a| + |b|
  {
  }

  lemma PatchSizes(before: set<Term>, lost: set<Term>, gained: set<Term>, after: set<Term>)
    requires lost <= before && gained !! before && before - lost + gained == after
    ensures |after| == |before| - |lost| + |gained|
  {
    assert (before - lost) + lost == before && (before - lost) !! lost && (before - lost) !! gained;
    DisjointSizes(before - lost, lost);
    DisjointSizes(before - lost, gained);
  }

  lemma SizesShift(before: set<Term>, after: set<Term>, added: set<Term>, removed: set<Term>,
                   changedFrom: set<Term>, changedTo: set<Term>)
    requires added + changedTo == after - before && added !! changedTo
    requires removed + changedFrom == before - after && removed !! changedFrom
    requires |changedFrom| == |changedTo|
    ensures |after| - |before| == |added| - |removed|
  {
    DisjointSizes(removed, changedFrom);
    DisjointSizes(added, changedTo);
    PatchSizes(before, before - after, after - before, after);
  }

  lemma CategoryOf(x: set<Term>, y: set<Term>, here: set<Term>, there: set<Term>, category: string)
    requires x + y == here - there && x !! y
    ensures OfCategory(x, category) + OfCategory(y, category)
        == OfCategory(here, category) - OfCategory(there, category)
    ensures OfCategory(x, category) !! OfCategory(y, category)
  {
  }

  lemma ChangedKeys(before: seq<Term>, after: seq<Term>, c: Changed)
    requires IsChanged(before, after, c)
    ensures c.before.key == c.key && c.after.key == c.key
  {
    hide Group;
    GroupHas(before, c.key);
    GroupHas(after, c.key);
    assert c.before in Group(before, c.key) && c.after in Group(after, c.key);
  }

  /** Each category grows by exactly its added rows less its removed ones. */
  lemma CategoryDelta(before: seq<Term>, after: seq<Term>, r: Report, category: string)
    requires IsDiff(before, after, r)
    ensures |OfCategory(Rows(after), category)| - |OfCategory(Rows(before), category)|
            == |OfCategory(Rows(r.added), category)| - |OfCategory(Rows(r.removed), category)|
  {
    GainsAndLosses(before, after, r);
    forall c <- r.changed ensures c.before.key == c.key && c.after.key == c.key
    {
      ChangedKeys(before, after, c);
    }
    ChangesBalance(r.changed, category);
    hide IsDiff, Covers, Rows, Befores, Afters, OfCategory;
    CategoryOf(Rows(r.removed), Befores(r.changed), Rows(before), Rows(after), category);
    CategoryOf(Rows(r.added), Afters(r.changed), Rows(after), Rows(before), category);
    SizesShift(OfCategory(Rows(before), category), OfCategory(Rows(after), category),
               OfCategory(Rows(r.added), category), OfCategory(Rows(r.removed), category),
               OfCategory(Befores(r.changed), category), OfCategory(Afters(r.changed), category));
  }

  /** `COUNT(*)` of a category's rows. */
  function CountOf(terms: seq<Term>, category: string): nat
  {
    if terms == [] then 0
    else (if terms[|terms| - 1].key.category == category then 1 else 0) + CountOf(terms[..|terms| - 1], category)
  }

  /** How many rows of a category are there only as repetitions of others. */
  function Surplus(terms: seq<Term>, category: string): int
  {
    CountOf(terms, category) - |OfCategory(Rows(terms), category)|
  }

  predicate NoDuplicatesIn(terms: seq<Term>, category: string)
  {
    forall i, j :: 0 <= i < j < |terms| && terms[j].key.category == category ==> terms[i] != terms[j]
  }

  /** The surplus is never negative, and nothing exactly when no row of the category is repeated. */
  lemma {:induction false} SurplusIs(terms: seq<Term>, category: string)
    ensures Surplus(terms, category) >= 0
    ensures Surplus(terms, category) == 0 <==> NoDuplicatesIn(terms, category)
  {
    if terms == [] {
      assert OfCategory(Rows(terms), category) == {};
    } else {
      var n := |terms| - 1;
      var front, t := terms[..n], terms[n];
      assert terms == front + [t];
      SurplusIs(front, category);
      SurplusPlus(front, t, category);
      DuplicatesPlus(front, t, category);
      hide Surplus, NoDuplicatesIn;
    }
  }

  lemma SurplusPlus(front: seq<Term>, t: Term, category: string)
    ensures Surplus(front + [t], category)
        == Surplus(front, category) + if t.key.category == category && t in front then 1 else 0
  {
    RowsPlus(front, t);
    hide Rows;
    assert (front + [t])[..|front|] == front;
    if t in front {
      assert Rows(front + [t]) == Rows(front);
    } else {
      OneMoreRow(Rows(front), t, category);
    }
  }

  lemma DuplicatesPlus(front: seq<Term>, t: Term, category: string)
    ensures NoDuplicatesIn(front + [t], category)
        <==> NoDuplicatesIn(front, category) && !(t.key.category == category && t in front)
  {
    var terms := front + [t];
    assert terms[|front|] == t;
    if t in front {
      var i :| 0 <= i < |front| && front[i] == t;
      assert terms[i] == t;
    }
    if NoDuplicatesIn(terms, category) {
      forall i, j | 0 <= i < j < |front| && front[j].key.category == category ensures front[i] != front[j] {
        assert terms[i] == front[i] && terms[j] == front[j];
      }
    }
    if NoDuplicatesIn(front, category) && !(t.key.category == category && t in front) {
      forall i, j | 0 <= i < j < |terms| && terms[j].key.category == category ensures terms[i] != terms[j] {
        assert terms[i] == front[i] && front[i] in front;
      }
    }
  }

  lemma RowsPlus(front: seq<Term>, t: Term)
    ensures Rows(front + [t]) == Rows(front) + {t}
    ensures t in front <==> t in Rows(front)
  {
  }

  /**
   Exactly when the reported change of a category's count is the number of rows added less the
   number removed: when as many of its rows are repetitions before as after.  Counted with the
   repetitions in the report, those the report lists are left out on either side.
   */
  lemma CountChangeIff(before: seq<Term>, after: seq<Term>, r: Report, category: string)
    requires IsDiff(before, after, r)
    ensures (CountOf(after, category) - CountOf(before, category)
             == |OfCategory(Rows(r.added), category)| - |OfCategory(Rows(r.removed), category)|)
            <==> Surplus(before, category) == Surplus(after, category)
    ensures (CountOf(after, category) - CountOf(before, category) == CountOf(r.added, category) - CountOf(r.removed, category))
            <==> Surplus(before, category) - Surplus(r.removed, category)
                 == Surplus(after, category) - Surplus(r.added, category)
  {
    CategoryDelta(before, after, r, category);
  }

  /** So it is, counted either way, for databases that repeat no row of the category. */
  lemma CountChange(before: seq<Term>, after: seq<Term>, r: Report, category: string)
    requires IsDiff(before, after, r) && NoDuplicatesIn(before, category) && NoDuplicatesIn(after, category)
    ensures CountOf(after, category) - CountOf(before, category)
        == CountOf(r.added, category) - CountOf(r.removed, category)
    ensures NoDuplicatesIn(r.added, category) && NoDuplicatesIn(r.removed, category)
  {
    CountChangeIff(before, after, r, category);
    OnceAtMost(r.added, after, category);
    OnceAtMost(r.removed, before, category);
    hide IsDiff, Surplus, NoDuplicatesIn;
    SurplusIs(before, category);
    SurplusIs(after, category);
    SurplusIs(r.added, category);
    SurplusIs(r.removed, category);
  }

  /** What a list without duplicates bounds has no duplicates. */
  lemma OnceAtMost(a: seq<Term>, b: seq<Term>, category: string)
    requires AtMost(a, b) && NoDuplicatesIn(b, category)
    ensures NoDuplicatesIn(a, category)
  {
    forall i, j | 0 <= i < j < |a| && a[j].key.category == category ensures a[i] != a[j]
    {
      if a[i] == a[j] {
        Sorting.Repeated(a, i, j);
        OnceIn(b, a[j], category);
        assert false;
      }
    }
  }

  lemma OnceIn(b: seq<Term>, t: Term, category: string)
    requires NoDuplicatesIn(b, category) && t.key.category == category
    ensures multiset(b)[t] <= 1
  {
    if k: nat :| k < |b| && b[k] == t {
      assert b == b[..k] + [t] + b[k + 1..];
      assert t !in b[..k] && t !in b[k + 1..];
    }
  }

  /** With a duplicate row the count can change though the diff is empty. */
  lemma DuplicatesGoUnseen(t: Term, r: Report)
    requires IsDiff([t, t], [t], r)
    ensures r.added == [] && r.removed == [] && r.changed == []
    ensures CountOf([t], t.key.category) - CountOf([t, t], t.key.category) == -1
  {
    assert Rows([t, t]) == Rows([t]);
    EmptyDiff([t, t], [t], r);
    assert [t, t][..1] == [t] && [t][..0] == [];
  }
}
