/** Official terms locked behind placeholders while a sentence is translated, and put back after. */
module Sentence {
  import opened Text
  import opened Dictionary
  import opened TermSpans
  import opened Placeholders
  import opened Overlaps

  /** A placeholder with both official forms, so it can be restored in either direction. */
  datatype Lock = Lock(placeholder: string, zh: string, en: string) {
    function Official(toEn: bool): string { if toEn then en else zh }
  }

  datatype LockedSentence = LockedSentence(text: string, locks: seq<Lock>)

  // ---------------------------------------------------------------- restoring

  /** `LockedSentence.restore`: `None` where it raises on a missing or duplicated placeholder. */
  function Restore(locks: seq<Lock>, text: string, toEn: bool): Option<string>
    requires forall l <- locks :: |l.placeholder| > 0
  {
    if locks == [] then Some(text)
    else if Count(text, locks[0].placeholder) != 1 then None
    else Restore(locks[1..], Replace(text, locks[0].placeholder, locks[0].Official(toEn)), toEn)
  }

  /** The loop of `restore`. */
  method RestoreLoop(locked: LockedSentence, translated: string, toEn: bool) returns (r: Option<string>)
    requires forall l <- locked.locks :: |l.placeholder| > 0
    ensures r == Restore(locked.locks, translated, toEn)
  {
    var result := translated;
    for k := 0 to |locked.locks|
      invariant Restore(locked.locks, translated, toEn) == Restore(locked.locks[k..], result, toEn)
    {
      var lock := locked.locks[k];
      assert locked.locks[k..][1..] == locked.locks[k + 1..];
      if Count(result, lock.placeholder) != 1 { return None; }
      result := Replace(result, lock.placeholder, lock.Official(toEn));
    }
    r := Some(result);
  }

  /** The locks belong to `keys`, which are all different. */
  ghost predicate Named(locks: seq<Lock>, keys: seq<Key>)
  {
    && |locks| == |keys|
    && (forall k :: 0 <= k < |keys| ==> IsToken(keys[k].token) && locks[k].placeholder == keys[k].Name())
    && (forall i, j :: 0 <= i < j < |keys| ==> keys[i] != keys[j])
  }

  /** Every hole is one of the locks', meant for that lock's official form. */
  ghost predicate Belongs(pieces: seq<Piece>, locks: seq<Lock>, keys: seq<Key>, toEn: bool)
    requires |locks| == |keys|
  {
    forall p <- pieces :: p.Hole? ==>
      exists k :: 0 <= k < |keys| && p.key == keys[k] && p.official == if toEn then locks[k].en else locks[k].zh
  }

  ghost predicate TokensAbsent(keys: seq<Key>, text: string)
  {
    forall key <- keys :: !Contains(text, key.token)
  }

  /**
   Restoring a translation that moved, dropped or repeated placeholders: it succeeds exactly when
   every placeholder stands once, and then each is replaced by its official form where it stands
   and nothing else changes.
   */
  lemma {:induction false} RestoreIff(locks: seq<Lock>, keys: seq<Key>, pieces: seq<Piece>, toEn: bool)
    requires Named(locks, keys) && Belongs(pieces, locks, keys, toEn)
    requires TokensAbsent(keys, Settle(pieces))
    ensures forall l <- locks :: |l.placeholder| > 0
    ensures Restore(locks, Render(pieces), toEn)
            == if forall key <- keys :: Times(pieces, key) == 1 then Some(Settle(pieces)) else None
    decreases |locks|
  {
    hide Placeholder, Render, Settle;
    NamesNonempty(locks, keys);
    if locks == [] {
      NoHoles(pieces);
    } else {
      var key, official := keys[0], locks[0].Official(toEn);
      assert key in keys;
      assert TokensOk(pieces);
      CountTells(pieces, key);
      if Times(pieces, key) == 1 {
        ReplaceFills(pieces, key, official);
        FilledOnce(pieces, locks, keys, toEn);
        StillNamed(pieces, locks, keys, toEn);
        RestoreIff(locks[1..], keys[1..], Fill(pieces, key, official), toEn);
      }
    }
  }

  /** Filling the first hole leaves the other keys' counts and the settled text as they were. */
  lemma FilledOnce(pieces: seq<Piece>, locks: seq<Lock>, keys: seq<Key>, toEn: bool)
    requires Named(locks, keys) && Belongs(pieces, locks, keys, toEn) && keys != [] && Times(pieces, keys[0]) == 1
    ensures var filled := Fill(pieces, keys[0], locks[0].Official(toEn));
            && Settle(filled) == Settle(pieces)
            && ((forall k <- keys :: Times(pieces, k) == 1) <==> (forall k <- keys[1..] :: Times(filled, k) == 1))
  {
    hide Placeholder, Render, Settle;
    var filled := Fill(pieces, keys[0], locks[0].Official(toEn));
    FillKeeps(pieces, keys[0], locks[0].Official(toEn));
    assert keys == [keys[0]] + keys[1..];
    forall k <- keys[1..] ensures k in keys && Times(filled, k) == Times(pieces, k) { assert k != keys[0]; }
    if forall k <- keys[1..] :: Times(filled, k) == 1 {
      forall k <- keys ensures Times(pieces, k) == 1 { assert k == keys[0] || k in keys[1..]; }
    }
  }

  lemma NamesNonempty(locks: seq<Lock>, keys: seq<Key>)
    requires Named(locks, keys)
    ensures forall l <- locks :: |l.placeholder| > 0
  {
    hide Placeholder;
    forall l <- locks ensures |l.placeholder| > 0
    {
      var k :| 0 <= k < |locks| && locks[k] == l;
      PlaceholderShape(keys[k].kind, keys[k].token, keys[k].number);
    }
  }

  lemma StillNamed(pieces: seq<Piece>, locks: seq<Lock>, keys: seq<Key>, toEn: bool)
    requires Named(locks, keys) && Belongs(pieces, locks, keys, toEn) && locks != []
    ensures Named(locks[1..], keys[1..])
    ensures Belongs(Fill(pieces, keys[0], locks[0].Official(toEn)), locks[1..], keys[1..], toEn)
  {
    hide Placeholder;
    var filled := Fill(pieces, keys[0], locks[0].Official(toEn));
    forall p <- filled | p.Hole?
      ensures exists k :: 0 <= k < |keys[1..]| && p.key == keys[1..][k] && p.official == locks[1..][k].Official(toEn)
    {
      var i :| 0 <= i < |filled| && filled[i] == p;
      assert pieces[i] in pieces;
      var k :| 0 <= k < |keys| && p.key == keys[k] && p.official == locks[k].Official(toEn);
      assert k > 0;
      assert keys[1..][k - 1] == keys[k] && locks[1..][k - 1] == locks[k];
    }
  }

  // ---------------------------------------------------------------- locking

  /** Spans lie in the text after `index`, one after another. */
  predicate Follows(text: string, spans: seq<Span>, index: nat)
  {
    if spans == [] then index <= |text|
    else index <= spans[0].start <= spans[0].end <= |text| && Follows(text, spans[1..], spans[0].end)
  }

  /** The text from `index` on, without the spans. */
  function Gaps(text: string, spans: seq<Span>, index: nat): (r: seq<string>)
    requires Follows(text, spans, index)
    ensures |r| == |spans| + 1
  {
    if spans == [] then [text[index..]] else [text[index..spans[0].start]] + Gaps(text, spans[1..], spans[0].end)
  }

  lemma {:induction false} SelectionFollows(text: string, surfaces: seq<string>, spans: seq<Span>, n: nat, index: nat)
    requires IsSelection(text, surfaces, spans) && n <= |spans|
    requires index <= |text| && (n < |spans| ==> index <= spans[n].start)
    ensures Follows(text, spans[n..], index)
    decreases |spans| - n
  {
    if n < |spans| {
      assert spans[n] in spans;
      assert spans[n..][1..] == spans[n + 1..];
      SelectionFollows(text, surfaces, spans, n + 1, spans[n].end);
    } else {
      assert spans[n..] == [];
    }
  }

  function Spelled(spans: seq<Span>): (r: seq<string>)
    ensures |r| == |spans|
  {
    if spans == [] then [] else [spans[0].source] + Spelled(spans[1..])
  }

  /** Putting back what each span spells gives the text itself: nothing but the spans was taken out. */
  lemma {:induction false} GapsLoseNothing(text: string, spans: seq<Span>, index: nat)
    requires Follows(text, spans, index)
    requires forall s <- spans :: s.start <= s.end <= |text| && text[s.start..s.end] == s.source
    ensures Weave(Gaps(text, spans, index), Spelled(spans)) == text[index..]
  {
    if spans != [] {
      var s := spans[0];
      assert s in spans;
      GapsLoseNothing(text, spans[1..], s.end);
      assert text[index..] == (text[index..s.start] + text[s.start..s.end]) + text[s.end..];
    }
  }

  ghost predicate Indexed(spans: seq<Span>, lockable: seq<Lockable>)
  {
    forall s <- spans :: s.order < |lockable|
  }

  /** The official form each span is to become. */
  function Officials(spans: seq<Span>, lockable: seq<Lockable>, toEn: bool): (r: seq<string>)
    requires Indexed(spans, lockable)
    ensures |r| == |spans|
    ensures forall k :: 0 <= k < |r| ==>
              r[k] == if toEn then lockable[spans[k].order].en else lockable[spans[k].order].zh
  {
    if spans == [] then [] else [lockable[spans[0].order].Official(toEn)] + Officials(spans[1..], lockable, toEn)
  }

  /** The source with every chosen term in its official form. */
  function OfficialText(text: string, spans: seq<Span>, lockable: seq<Lockable>, toEn: bool): string
    requires Indexed(spans, lockable) && Follows(text, spans, 0)
  {
    Weave(Gaps(text, spans, 0), Officials(spans, lockable, toEn))
  }

  function LockFor(span: Span, lockable: seq<Lockable>, token: string, number: nat): Lock
    requires span.order < |lockable|
  {
    var l := lockable[span.order];
    Lock(Placeholder(Term, token, number), l.zh, l.en)
  }

  function LocksFor(spans: seq<Span>, lockable: seq<Lockable>, token: string, first: nat): (r: seq<Lock>)
    requires Indexed(spans, lockable)
    ensures |r| == |spans|
  {
    if spans == [] then [] else [LockFor(spans[0], lockable, token, first)] + LocksFor(spans[1..], lockable, token, first + 1)
  }

  lemma {:induction false} LocksAt(spans: seq<Span>, lockable: seq<Lockable>, token: string, first: nat)
    requires Indexed(spans, lockable)
    ensures forall k :: 0 <= k < |spans| ==> LocksFor(spans, lockable, token, first)[k] == LockFor(spans[k], lockable, token, first + k)
  {
    hide LockFor;
    if spans != [] { LocksAt(spans[1..], lockable, token, first + 1); }
  }

  /** What `_lock_terms` promises about the sentence it returns. */
  ghost predicate IsLocked(text: string, lockable: seq<Lockable>, token: string, spans: seq<Span>,
          locked: LockedSentence)
  {
    && IsSelection(text, Surfaces(lockable), spans) && Indexed(spans, lockable) && Follows(text, spans, 0)
    && locked.text == Weave(Gaps(text, spans, 0), Names(Term, token, 0, |spans|))
    && locked.locks == LocksFor(spans, lockable, token, 0)
  }

  /** What the next span contributes to the copy. */
  lemma SpanNext(text: string, selected: seq<Span>, lockable: seq<Lockable>, token: string, n: nat, index: nat)
    requires n < |selected| && Indexed(selected, lockable) && Follows(text, selected[n..], index)
    ensures var span, gaps, names := selected[n], Gaps(text, selected[n..], index), Names(Term, token, n,
        |selected| - n);
            && span.order < |lockable| && index <= span.start <= span.end <= |text|
            && Follows(text, selected[n + 1..], span.end) && |gaps| == |names| + 1 > 1
            && gaps[1..] == Gaps(text, selected[n + 1..], span.end)
            && names[1..] == Names(Term, token, n + 1, |selected| - n - 1)
            && Weave(gaps, names) == (text[index..span.start] + Placeholder(Term, token, n)) + Weave(gaps[1..], names[1..])
            && Indexed(selected[n..], lockable) && Indexed(selected[n + 1..], lockable)
            && LocksFor(selected[n..], lockable, token, n)
               == [LockFor(span, lockable, token, n)] + LocksFor(selected[n + 1..], lockable, token, n + 1)
  {
    hide Placeholder, LockFor;
    assert selected[n..][0] == selected[n] && selected[n..][1..] == selected[n + 1..] && selected[n] in selected;
  }

  lemma NoSpanLeft(text: string, selected: seq<Span>, lockable: seq<Lockable>, token: string, index: nat)
    requires index <= |text| && Follows(text, selected[|selected|..], index)
        && Indexed(selected[|selected|..], lockable)
    ensures Weave(Gaps(text, selected[|selected|..], index), Names(Term, token, |selected|, 0)) == text[index..]
    ensures LocksFor(selected[|selected|..], lockable, token, |selected|) == []
  {
    assert selected[|selected|..] == [];
  }

  /** The copying loop of `_lock_terms`. */
  method CopyWithPlaceholders(text: string, selected: seq<Span>, lockable: seq<Lockable>, token: string)
          returns (locked: LockedSentence)
    requires Follows(text, selected, 0) && Indexed(selected, lockable)
    ensures locked.text == Weave(Gaps(text, selected, 0), Names(Term, token, 0, |selected|))
    ensures locked.locks == LocksFor(selected, lockable, token, 0)
  {
    hide Placeholder, LockFor, Gaps, Names, LocksFor, Weave;
    var parts, locks, index: nat := "", [], 0;
    assert selected[0..] == selected;
    for n := 0 to |selected|
      invariant |locks| == n && index <= |text| && Follows(text, selected[n..], index)
      invariant LocksFor(selected, lockable, token, 0) == locks + LocksFor(selected[n..], lockable, token, n)
      invariant Weave(Gaps(text, selected, 0), Names(Term, token, 0, |selected|))
                == parts + Weave(Gaps(text, selected[n..], index), Names(Term, token, n, |selected| - n))
    {
      var span := selected[n];
      SpanNext(text, selected, lockable, token, n, index);
      var gaps, names := Gaps(text, selected[n..], index), Names(Term, token, n, |selected| - n);
      var lock := LockFor(span, lockable, token, |locks|);
      var piece := text[index..span.start] + Placeholder(Term, token, |locks|);
      Associative(parts, piece, Weave(gaps[1..], names[1..]));
      Associative(locks, [lock], LocksFor(selected[n + 1..], lockable, token, n + 1));
      parts := parts + piece;
      locks := locks + [lock];
      index := span.end;
    }
    NoSpanLeft(text, selected, lockable, token, index);
    locked := LockedSentence(parts + text[index..], locks);
  }

  /** `_lock_terms`, with the spans it chose: the text copied across with a placeholder for each. */
  method LockTerms(text: string, lockable: seq<Lockable>, token: string)
          returns (locked: LockedSentence, spans: seq<Span>)
    ensures IsLocked(text, lockable, token, spans, locked)
  {
    hide Placeholder, LocksFor;
    var selected := SelectSpans(text, Surfaces(lockable));
    spans := selected;
    SelectionFollows(text, Surfaces(lockable), selected, 0, 0);
    assert selected[0..] == selected;
    assert forall s <- selected :: IsCandidate(text, Surfaces(lockable), s);
    locked := CopyWithPlaceholders(text, selected, lockable, token);
  }

  // ---------------------------------------------------------------- the round trip

  function TermKeys(token: string, count: nat): (r: seq<Key>)
    ensures |r| == count && forall k :: 0 <= k < count ==> r[k] == Key(Term, token, k)
  {
    seq(count, k requires 0 <= k => Key(Term, token, k))
  }

  /** The holes of a locked text are its locks'. */
  lemma LockedPieces(text: string, lockable: seq<Lockable>, token: string, spans: seq<Span>, locks: seq<Lock>,
          toEn: bool)
    requires Indexed(spans, lockable) && Follows(text, spans, 0) && locks == LocksFor(spans, lockable, token, 0)
        && IsToken(token)
    ensures Named(locks, TermKeys(token, |spans|))
    ensures Belongs(Woven(Term, token, 0, Gaps(text, spans, 0), Officials(spans, lockable, toEn)), locks, TermKeys(token, |spans|), toEn)
  {
    hide Placeholder;
    var keys, officials := TermKeys(token, |spans|), Officials(spans, lockable, toEn);
    var pieces := Woven(Term, token, 0, Gaps(text, spans, 0), officials);
    WovenHoles(Term, token, 0, Gaps(text, spans, 0), officials);
    LocksAt(spans, lockable, token, 0);
    forall p <- pieces | p.Hole?
      ensures exists k :: 0 <= k < |keys| && p.key == keys[k] && p.official == locks[k].Official(toEn)
    {
      assert HoleAmong(p, Term, token, 0, officials);
      assert p.key == keys[p.key.number]
          && locks[p.key.number] == LockFor(spans[p.key.number], lockable, token, 0 + p.key.number);
    }
  }

  // ---------------------------------------------------------------- exactly when the round trip works

  /** The locks replace the names by the official forms, in this order. */
  ghost predicate Replaces(locks: seq<Lock>, names: seq<string>, officials: seq<string>, toEn: bool)
  {
    && |locks| == |names| == |officials|
    && forall k :: 0 <= k < |locks| ==> Framed(names[k]) && locks[k].placeholder == names[k] && locks[k].Official(toEn) == officials[k]
  }

  /** Name `k` stands alone once the names before it are in their official forms. */
  predicate StandsAt(gaps: seq<string>, names: seq<string>, officials: seq<string>, k: nat)
    requires |gaps| == |names| + 1 == |officials| + 1 && k < |names| && |names[k]| > 0
  {
    StandsAlone(Weave(gaps[..k + 1], officials[..k]), names[k], officials[k], Weave(gaps[k + 1..], names[k + 1..]))
  }

  predicate AllStand(gaps: seq<string>, names: seq<string>, officials: seq<string>)
    requires |gaps| == |names| + 1 == |officials| + 1 && forall n <- names :: |n| > 0
  {
    forall k :: 0 <= k < |names| ==> StandsAt(gaps, names, officials, k)
  }

  /** Text before the first segment belongs to it. */
  lemma WeaveFrom(head: string, segments: seq<string>, fillings: seq<string>)
    requires |segments| == |fillings| + 1
    ensures Weave([head + segments[0]] + segments[1..], fillings) == head + Weave(segments, fillings)
  {
    var first := [head + segments[0]] + segments[1..];
    assert first[1..] == segments[1..];
    if fillings != [] {
      var rest := Weave(segments[1..], fillings[1..]);
      assert ((head + segments[0]) + fillings[0]) + rest == head + ((segments[0] + fillings[0]) + rest);
    }
  }

  lemma WeaveStep(head: string, rest: seq<string>, fillings: seq<string>)
    requires |rest| == |fillings| > 0
    ensures Weave([head] + rest, fillings) == (head + fillings[0]) + Weave(rest, fillings[1..])
    ensures Weave([head] + rest, fillings) == Weave([(head + fillings[0]) + rest[0]] + rest[1..], fillings[1..])
  {
    assert ([head] + rest)[1..] == rest;
    WeaveFrom(head + fillings[0], rest, fillings[1..]);
  }

  /** One step of `restore`, with the text taken apart at the name it looks for. */
  lemma RestoreStep(locks: seq<Lock>, head: string, rest: seq<string>, names: seq<string>, officials: seq<string>,
          toEn: bool)
      returns (shift: nat, made: string)
    requires Replaces(locks, names, officials, toEn) && |rest| == |names| > 0
    ensures forall l <- locks :: |l.placeholder| > 0
    ensures shift <= |head| && shift < |names[0]| && names[0][shift..] == names[0][..|names[0]| - shift]
    ensures head == head[..|head| - shift] + names[0][..shift]
    ensures made == head[..|head| - shift] + officials[0] + names[0][|names[0]| - shift..]
    ensures var after := Weave(rest, names[1..]);
            if Count(head + names[0] + after, names[0]) != 1 then
              Restore(locks, Weave([head] + rest, names), toEn) == None
                  && !StandsAlone(head, names[0], officials[0], after)
            else
              && Restore(locks, Weave([head] + rest, names), toEn)
                 == Restore(locks[1..], Weave([made + rest[0]] + rest[1..], names[1..]), toEn)
              && (StandsAlone(head, names[0], officials[0], after) <==> Commutes(names[0], officials[0], shift))
  {
    hide Count, Replace, Weave, Commutes, StandsAlone;
    ReplacesNonempty(locks, names, officials, toEn);
    var name, official, after := names[0], officials[0], Weave(rest, names[1..]);
    WeaveStep(head, rest, names);
    if Count(head + name + after, name) != 1 {
      shift, made := 0, head + official;
      NoShift(name, official);
      assert head == head[..|head| - 0] + name[..0] && made == head[..|head| - 0] + official + name[|name|..];
      NotOnce(head, name, official, after);
    } else {
      shift := ReplaceShifted(head, name, official, after);
      made := head[..|head| - shift] + official + name[|name| - shift..];
      WeaveFrom(made, rest, names[1..]);
    }
  }

  lemma NotOnce(before: string, name: string, official: string, after: string)
    requires |name| > 0 && Count(before + name + after, name) != 1
    ensures !StandsAlone(before, name, official, after)
  {
  }

  lemma ReplacesNonempty(locks: seq<Lock>, names: seq<string>, officials: seq<string>, toEn: bool)
    requires Replaces(locks, names, officials, toEn)
    ensures forall l <- locks :: |l.placeholder| > 0
    ensures forall n <- names :: |n| > 0
    ensures locks != [] ==> Replaces(locks[1..], names[1..], officials[1..], toEn)
  {
    forall l <- locks ensures |l.placeholder| > 0 { var k :| 0 <= k < |locks| && locks[k] == l; }
  }

  /** Once a replacement went wrong, no later one leads back to the official text. */
  lemma {:induction false} NoRepair(locks: seq<Lock>, q: string, p: string, rest: seq<string>, names: seq<string>,
          officials: seq<string>, toEn: bool)
    requires Replaces(locks, names, officials, toEn) && |rest| == |names| && Astray(q, p)
    ensures forall l <- locks :: |l.placeholder| > 0
    ensures Restore(locks, Weave([q] + rest, names), toEn) != Some(Weave([p] + rest, officials))
    decreases |locks|
  {
    hide Count, Replace, Weave, Commutes, StandsAlone, Framed;
    ReplacesNonempty(locks, names, officials, toEn);
    if locks == [] {
      OnlySegment(q, rest, names);
      OnlySegment(p, rest, officials);
    } else {
      var shift, made := RestoreStep(locks, q, rest, names, officials, toEn);
      WeaveStep(p, rest, officials);
      if shift == 0 {
        assert made == q + officials[0];
        AstrayStays(q, p, officials[0]);
      } else {
        AstrayAgain(q, p, names[0], officials[0], shift);
      }
      AstrayStays(made, p + officials[0], rest[0]);
      NoRepair(locks[1..], made + rest[0], (p + officials[0]) + rest[0], rest[1..], names[1..], officials[1..], toEn);
    }
  }

  lemma OnlySegment(s: string, rest: seq<string>, fillings: seq<string>)
    requires |rest| == |fillings| == 0
    ensures Weave([s] + rest, fillings) == s
  {
  }

  /** Merging what is settled into the first segment leaves the question of the other names as it was. */
  lemma StandsAfterFirst(head: string, rest: seq<string>, names: seq<string>, officials: seq<string>)
    requires |rest| == |names| == |officials| > 0 && forall n <- names :: |n| > 0
    ensures forall n <- names[1..] :: |n| > 0
    ensures StandsAt([head] + rest, names, officials, 0)
            <==> StandsAlone(head, names[0], officials[0], Weave(rest, names[1..]))
    ensures AllStand([head] + rest, names, officials)
            <==> StandsAt([head] + rest, names, officials, 0)
                 && AllStand([(head + officials[0]) + rest[0]] + rest[1..], names[1..], officials[1..])
  {
    hide Weave, StandsAlone;
    var gaps, merged := [head] + rest, [(head + officials[0]) + rest[0]] + rest[1..];
    assert gaps[..1] == [head] + [] && gaps[1..] == rest && officials[..0] == [];
    OnlySegment(head, [], []);
    forall k | 1 <= k < |names|
      ensures StandsAt(gaps, names, officials, k) <==> StandsAt(merged, names[1..], officials[1..], k - 1)
    {
      assert gaps[..k + 1] == [head] + rest[..k] && officials[..k][1..] == officials[1..][..k - 1];
      WeaveStep(head, rest[..k], officials[..k]);
      assert merged[..k] == [(head + officials[0]) + rest[..k][0]] + rest[..k][1..];
      assert gaps[k + 1..] == rest[k..] == merged[k..] && names[k + 1..] == names[1..][k..];
    }
    if AllStand(merged, names[1..], officials[1..]) {
      forall k | 1 <= k < |names| ensures StandsAt(gaps, names, officials, k) { assert StandsAt(merged, names[1..], officials[1..], k - 1); }
    }
    if AllStand(gaps, names, officials) {
      forall k | 0 <= k < |names[1..]| ensures StandsAt(merged, names[1..], officials[1..], k) { assert StandsAt(gaps, names, officials, k + 1); }
    }
  }

  /** Replacing the names one by one gives the official text exactly when each stands alone in its turn. */
  lemma {:induction false} ExactlyWhen(locks: seq<Lock>, head: string, rest: seq<string>, names: seq<string>,
          officials: seq<string>, toEn: bool)
    requires Replaces(locks, names, officials, toEn) && |rest| == |names|
    ensures forall l <- locks :: |l.placeholder| > 0
    ensures forall n <- names :: |n| > 0
    ensures Restore(locks, Weave([head] + rest, names), toEn) == Some(Weave([head] + rest, officials))
            <==> AllStand([head] + rest, names, officials)
    decreases |locks|
  {
    hide Count, Replace, Weave, Commutes, Astray, StandsAlone, StandsAt, AllStand, Framed;
    ReplacesNonempty(locks, names, officials, toEn);
    if locks == [] {
      OnlySegment(head, rest, names);
      OnlySegment(head, rest, officials);
      NoneToStand([head] + rest, names, officials);
    } else {
      var shift, made := RestoreStep(locks, head, rest, names, officials, toEn);
      StandsAfterFirst(head, rest, names, officials);
      WeaveStep(head, rest, officials);
      if Commutes(names[0], officials[0], shift) {
        MadeRight(head, names[0], officials[0], shift);
        ExactlyWhen(locks[1..], (head + officials[0]) + rest[0], rest[1..], names[1..], officials[1..], toEn);
      } else {
        GoesAstray(head, names[0], officials[0], shift);
        AstrayStays(made, head + officials[0], rest[0]);
        NoRepair(locks[1..], made + rest[0], (head + officials[0]) + rest[0], rest[1..], names[1..], officials[1..],
            toEn);
      }
    }
  }

  lemma NoneToStand(gaps: seq<string>, names: seq<string>, officials: seq<string>)
    requires |gaps| == |names| + 1 == |officials| + 1 && names == []
    ensures AllStand(gaps, names, officials)
  {
  }

  lemma MadeRight(head: string, name: string, official: string, shift: nat)
    requires shift <= |head| && shift <= |name| && head == head[..|head| - shift] + name[..shift]
    requires Commutes(name, official, shift)
    ensures head[..|head| - shift] + official + name[|name| - shift..] == head + official
  {
    var start := head[..|head| - shift];
    assert start + official + name[|name| - shift..] == start + (official + name[|name| - shift..]);
    assert start + (name[..shift] + official) == (start + name[..shift]) + official;
  }

  /** A placeholder has no double underscore but at its two ends. */
  lemma PlaceholderFramed(kind: Kind, token: string, number: nat)
    requires IsToken(token)
    ensures Framed(Placeholder(kind, token, number))
  {
    PlaceholderShape(kind, token, number);
    var p, d := Placeholder(kind, token, number), Padded(number);
    var head := "__WUWA_" + Word(kind) + "_";
    assert p == head + token + "_" + d + "__";
    assert forall k :: 0 <= k < 12 ==> p[k] == head[k];
    assert p[|p| - 2] == '_' && p[|p| - 1] == '_' && p[29 + |d| - 1] != '_';
  }

  /**
   Exactly when locking and restoring the unmodified text gives the text in its official forms, in
   either direction, for any dictionary and token: each placeholder stands alone at the time it is
   replaced.
   */
  lemma LockedRestoresIff(text: string, lockable: seq<Lockable>, token: string, spans: seq<Span>,
          locked: LockedSentence, toEn: bool)
    requires IsLocked(text, lockable, token, spans, locked) && IsToken(token)
    ensures forall l <- locked.locks :: |l.placeholder| > 0
    ensures forall n <- Names(Term, token, 0, |spans|) :: |n| > 0
    ensures Restore(locked.locks, locked.text, toEn) == Some(OfficialText(text, spans, lockable, toEn))
            <==> AllStand(Gaps(text, spans, 0), Names(Term, token, 0, |spans|), Officials(spans, lockable, toEn))
  {
    hide Placeholder, Weave, AllStand, Framed, IsSelection, Gaps;
    var gaps, names := Gaps(text, spans, 0), Names(Term, token, 0, |spans|);
    var officials := Officials(spans, lockable, toEn);
    LocksAt(spans, lockable, token, 0);
    NamesAt(Term, token, 0, |spans|);
    forall k | 0 <= k < |spans|
      ensures Framed(names[k]) && locked.locks[k].placeholder == names[k]
          && locked.locks[k].Official(toEn) == officials[k]
    {
      PlaceholderFramed(Term, token, k);
      assert locked.locks[k] == LockFor(spans[k], lockable, token, 0 + k);
    }
    assert gaps == [gaps[0]] + gaps[1..];
    ExactlyWhen(locked.locks, gaps[0], gaps[1..], names, officials, toEn);
  }

  /** Away from texts that break off one or two characters short of the placeholder, occurring once is all it takes. */
  lemma OnceIsEnough(before: string, name: string, official: string, after: string)
    requires Framed(name)
    requires forall n :: 0 < |name| - n <= 2 && 0 <= n <= |before| ==> before[|before| - n..] != name[..n]
    ensures StandsAlone(before, name, official, after) <==> Count(before + name + after, name) == 1
  {
    hide Count, Replace;
    NoShift(name, official);
    if Count(before + name + after, name) == 1 {
      var shift := ReplaceShifted(before, name, official, after);
      assert before[|before| - shift..] == name[..shift];
      if shift > 0 { Border(name, shift); }
    }
  }

  /**
   With a random token that is not in the official text, every placeholder stands alone: locking and
   restoring the unmodified text never raises, in either direction and for any number of locks.
   */
  lemma LockedRestores(text: string, lockable: seq<Lockable>, token: string, spans: seq<Span>,
          locked: LockedSentence, toEn: bool)
    requires IsLocked(text, lockable, token, spans, locked) && IsToken(token)
    requires !Contains(OfficialText(text, spans, lockable, toEn), token)
    ensures forall l <- locked.locks :: |l.placeholder| > 0
    ensures forall n <- Names(Term, token, 0, |spans|) :: |n| > 0
    ensures Restore(locked.locks, locked.text, toEn) == Some(OfficialText(text, spans, lockable, toEn))
    ensures AllStand(Gaps(text, spans, 0), Names(Term, token, 0, |spans|), Officials(spans, lockable, toEn))
  {
    hide Placeholder;
    var gaps, officials := Gaps(text, spans, 0), Officials(spans, lockable, toEn);
    var pieces, keys := Woven(Term, token, 0, gaps, officials), TermKeys(token, |spans|);
    WovenShows(Term, token, 0, gaps, officials);
    WovenHoles(Term, token, 0, gaps, officials);
    LockedPieces(text, lockable, token, spans, locked.locks, toEn);
    RestoreIff(locked.locks, keys, pieces, toEn);
    LockedRestoresIff(text, lockable, token, spans, locked, toEn);
  }

  /** `translate` when no model is configured: lock, then restore at once. */
  method TranslateOffline(text: string, lockable: seq<Lockable>, token: string, toEn: bool)
      returns (r: Option<string>, spans: seq<Span>)
    requires IsToken(token)
    ensures IsSelection(text, Surfaces(lockable), spans) && Indexed(spans, lockable) && Follows(text, spans, 0)
    ensures !Contains(OfficialText(text, spans, lockable, toEn), token)
        ==> r == Some(OfficialText(text, spans, lockable, toEn))
    ensures forall n <- Names(Term, token, 0, |spans|) :: |n| > 0
    ensures r == Some(OfficialText(text, spans, lockable, toEn))
            <==> AllStand(Gaps(text, spans, 0), Names(Term, token, 0, |spans|), Officials(spans, lockable, toEn))
  {
    hide Placeholder, AllStand, Weave, Gaps;
    var locked;
    locked, spans := LockTerms(text, lockable, token);
    LockedRestoresIff(text, lockable, token, spans, locked, toEn);
    if !Contains(OfficialText(text, spans, lockable, toEn), token) {
      LockedRestores(text, lockable, token, spans, locked, toEn);
    }
    r := RestoreLoop(locked, locked.text, toEn);
  }

  // ---------------------------------------------------------------- where it does not

  /** Terms `i` and `j` of a dictionary with `between` between them, chosen and locked. */
  lemma TwoLocked(text: string, between: string, lockable: seq<Lockable>, i: nat, j: nat, token: string)
          returns (spans: seq<Span>, locked: LockedSentence)
    requires i < |lockable| && j < |lockable| && lockable[i].source != "" && lockable[j].source != ""
    requires text == lockable[i].source + between + lockable[j].source
    requires IsSelection(text, Surfaces(lockable), TwoSpans(lockable, i, between, j))
    ensures spans == TwoSpans(lockable, i, between, j) && IsLocked(text, lockable, token, spans, locked)
    ensures locked.text == Placeholder(Term, token, 0) + between + Placeholder(Term, token, 1)
    ensures locked.locks == [Lock(Placeholder(Term, token, 0), lockable[i].zh, lockable[i].en),
                             Lock(Placeholder(Term, token, 1), lockable[j].zh, lockable[j].en)]
    ensures OfficialText(text, spans, lockable, true) == lockable[i].en + between + lockable[j].en
  {
    hide Placeholder, IsSelection;
    spans := TwoSpans(lockable, i, between, j);
    var a, b := lockable[i], lockable[j];
    assert spans[1..] == [spans[1]] && spans[1..][1..] == [];
    assert Follows(text, spans[1..][1..], |text|) && Follows(text, spans[1..], |a.source|) && Follows(text, spans, 0);
    var names := Names(Term, token, 0, 2);
    assert names == [Placeholder(Term, token, 0)] + Names(Term, token, 1, 1);
    assert Names(Term, token, 1, 1) == [Placeholder(Term, token, 1)] + Names(Term, token, 2, 0);
    assert names == [Placeholder(Term, token, 0), Placeholder(Term, token, 1)];
    assert text[|text|..] == "" && Gaps(text, spans[1..][1..], |text|) == [""];
    assert text[|a.source|..|a.source| + |between|] == between;
    assert Gaps(text, spans[1..], |a.source|) == [between, ""];
    assert text[0..0] == "";
    assert Gaps(text, spans, 0) == ["", between, ""];
    WeaveTwo(between, names[0], names[1]);
    WeaveTwo(between, a.en, b.en);
    locked := LockedSentence(Weave(["", between, ""], names), LocksFor(spans, lockable, token, 0));
    assert Officials(spans, lockable, true) == [a.en, b.en];
    LocksAt(spans, lockable, token, 0);
  }

  function TwoSpans(lockable: seq<Lockable>, i: nat, between: string, j: nat): seq<Span>
    requires i < |lockable| && j < |lockable|
  {
    var a, b := lockable[i].source, lockable[j].source;
    var next := |a| + |between|;
    [Span(0, |a|, a, i), Span(next, next + |b|, b, j)]
  }

  lemma WeaveTwo(between: string, a: string, b: string)
    ensures Weave(["", between, ""], [a, b]) == a + between + b
  {
    var segments := ["", between, ""];
    assert segments[1..] == [between, ""] && segments[1..][1..] == [""] && [a, b][1..] == [b] && [a, b][1..][1..] == [];
    assert Weave([""], []) == "";
    assert Weave([between, ""], [b]) == between + b + ""
        == between + b by { assert [b][1..] == [] && [between, ""][1..] == [""]; }
    assert ("" + a) + (between + b) == a + between + b;
  }

  lemma RenderThree(a: Piece, b: Piece, c: Piece)
    ensures Render([a, b, c]) == Shown(a) + Shown(b) + Shown(c)
    ensures Settle([a, b, c]) == Meant(a) + Meant(b) + Meant(c)
  {
    hide Placeholder;
    var s := [a, b, c];
    assert s[1..] == [b, c] && s[1..][1..] == [c] && s[1..][1..][1..] == [];
    assert [a, b] + [c] == s;
    RenderTwo(a, b, [c]);
    assert Render([c]) == Shown(c) + "" && Settle([c]) == Meant(c) + "";
  }

  /** The first of two placeholders is found where it stands. */
  lemma FirstReplaced(k0: Key, k1: Key, between: string, official: string)
    requires IsToken(k0.token) && k1 == k0.(number := 1) && k0.number == 0 && |between| <= 1
    ensures var p, q := k0.Name(), k1.Name();
            && |p| > 0 && |q| > 0 && Count(p + between + q, p) == 1
            && Replace(p + between + q, p, official) == official + between + q
  {
    hide Placeholder, Count, Replace, Render, Settle;
    var pieces := [Hole(k0, "x"), Plain(between), Hole(k1, "y")];
    RenderThree(pieces[0], pieces[1], pieces[2]);
    assert pieces[1..] == [Plain(between), Hole(k1, "y")] && pieces[1..][1..] == [Hole(k1, "y")];
    assert Times(pieces, k0) == 1 + Times(pieces[1..], k0) == 1 + Times(pieces[1..][1..], k0) == 1;
    CountTells(pieces, k0);
    CountTells(pieces, k1);
    ReplaceFills(pieces, k0, official);
    assert Fill(pieces, k0, official) == [Plain(official), Plain(between), Hole(k1, "y")];
    RenderThree(Plain(official), Plain(between), Hole(k1, "y"));
  }

  /** A placeholder can be an English form: it is long and stays on one line. */
  lemma PlaceholderIsForm(token: string, number: nat)
    requires IsToken(token)
    ensures var q := Placeholder(Term, token, number); |q| > 30 && '\n' !in q && q[0] == '_'
    ensures |Prefix(Term, token)| == 29
  {
    PlaceholderShape(Term, token, number);
    var p, d := Placeholder(Term, token, number), Padded(number);
    assert p == "__WUWA_TERM_" + token + "_" + d + "__";
    assert forall i :: 0 <= i < |token| ==> IsHex(token[i]);
    assert '\n' !in token && '\n' !in d;
  }

  /**
   The code only redraws a token whose prefix is in the text.  That is not enough: with an English
   form that spells a later placeholder in the terms table, the restore raises.
   */
  lemma PrefixCheckIsNotEnough(token: string) returns (spans: seq<Span>, locked: LockedSentence)
    requires IsToken(token)
    ensures var entries := [TermEntry("ab", Placeholder(Term, token, 1)), TermEntry("cd", "zz")];
            && IsLocked("ab cd", Lockables(entries), token, spans, locked) && !Contains("ab cd", Prefix(Term, token))
            && (forall l <- locked.locks :: |l.placeholder| > 0)
            && Restore(locked.locks, locked.text, true) == None
  {
    hide Placeholder, Count, Replace, Prefix, Lockables;
    var k0, k1 := Key(Term, token, 0), Key(Term, token, 1);
    var p, q := k0.Name(), k1.Name();
    PlaceholderIsForm(token, 1);
    var lockable := Lockables([TermEntry("ab", q), TermEntry("cd", "zz")]);
    TwoEntries(TermEntry("ab", q), TermEntry("cd", "zz"));
    SpacedSelection(lockable, q);
    spans, locked := TwoLocked("ab cd", " ", lockable, 0, 2, token);
    FirstReplaced(k0, k1, " ", q);
    TwoOccurrences(q + " " + q, q, 0, |q| + 1);
    assert locked.locks[1..] == [Lock(q, "cd", "zz")];
  }

  lemma SpacedSelection(lockable: seq<Lockable>, form: string)
    requires Surfaces(lockable) == ["ab", form, "cd", "zz"] && |form| > 5
    ensures IsSelection("ab cd", Surfaces(lockable), TwoSpans(lockable, 0, " ", 2))
  {
    var text, surfaces, spans := "ab cd", Surfaces(lockable), TwoSpans(lockable, 0, " ", 2);
    assert text[0..2] == "ab" && text[3..5] == "cd";
    forall s: Span | IsCandidate(text, surfaces, s) ensures s in spans
    {
      assert text[s.start] == text[s.start..s.end][0] == s.source[0];
    }
  }

  /**
   Nor is raising certain: an English form that stops two characters short of the next placeholder
   makes that placeholder count once, and replaced before its place, without any error.
   */
  lemma OverlapSlipsThrough(token: string) returns (spans: seq<Span>, locked: LockedSentence)
    requires IsToken(token)
    ensures var q := Placeholder(Term, token, 1);
            && |q| > 2
            && var lockable := Lockables([TermEntry(ZHONGWEN, q[..|q| - 2]), TermEntry(HANZI, "zz")]);
            && IsLocked(ZHONGWEN + HANZI, lockable, token, spans, locked)
                && !Contains(ZHONGWEN + HANZI, Prefix(Term, token))
            && (forall l <- locked.locks :: |l.placeholder| > 0)
            && Restore(locked.locks, locked.text, true) == Some("zz" + q[2..])
            && OfficialText(ZHONGWEN + HANZI, spans, lockable, true) == q[..|q| - 2] + "zz" != "zz" + q[2..]
  {
    hide Placeholder, Count, Replace, Prefix, IsSelection, Gaps, LocksFor, Officials, Lockables;
    var k0, k1 := Key(Term, token, 0), Key(Term, token, 1);
    var p, q := k0.Name(), k1.Name();
    PlaceholderIsForm(token, 1);
    PlaceholderFramed(Term, token, 1);
    var short := q[..|q| - 2];
    var lockable := Lockables([TermEntry(ZHONGWEN, short), TermEntry(HANZI, "zz")]);
    TwoEntries(TermEntry(ZHONGWEN, short), TermEntry(HANZI, "zz"));
    AdjacentSelection(lockable, short);
    assert ZHONGWEN + "" + HANZI == ZHONGWEN + HANZI;
    spans, locked := TwoLocked(ZHONGWEN + HANZI, "", lockable, 0, 2, token);
    FirstReplaced(k0, k1, "", short);
    assert short + "" + q == short + q && short + "" + "zz" == short + "zz";
    FoundShort(q, "zz");
    assert Restore(locked.locks, locked.text, true) == Restore(locked.locks[1..], short + q, true);
    var last := locked.locks[1..];
    assert last == [Lock(q, HANZI, "zz")] && last[1..] == [];
    assert Restore(last, short + q, true) == Restore(last[1..], Replace(short + q, q, "zz"), true);
    assert (short + "zz")[0] == q[0] == '_';
  }

  const ZHONGWEN := "\U{4e2d}\U{6587}"
  const HANZI := "\U{6c49}\U{5b57}"

  lemma FoundShort(q: string, official: string)
    requires Framed(q)
    ensures var text := q[..|q| - 2] + q; Count(text, q) == 1 && Replace(text, q, official) == official + q[2..]
  {
    var text := q[..|q| - 2] + q;
    assert text[..|q|] == q;
    assert OccursAt(text, q, 0);
    assert Find(text, q, |q|).None?;
    assert CountFrom(text, q, |q|) == 0;
    assert Count(text, q) == 1;
    ReplaceOnce(text, q, official);
    assert text[|q|..] == q[2..];
  }

  lemma AdjacentSelection(lockable: seq<Lockable>, form: string)
    requires Surfaces(lockable) == [ZHONGWEN, form, HANZI, "zz"] && |form| > 4
    ensures IsSelection(ZHONGWEN + HANZI, Surfaces(lockable), TwoSpans(lockable, 0, "", 2))
  {
    var text, surfaces, spans := ZHONGWEN + HANZI, Surfaces(lockable), TwoSpans(lockable, 0, "", 2);
    assert text[0..2] == ZHONGWEN && text[2..4] == HANZI;
    forall s: Span | IsCandidate(text, surfaces, s) ensures s in spans
    {
      assert text[s.start] == text[s.start..s.end][0] == s.source[0];
    }
  }
}
