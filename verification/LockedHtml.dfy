/** Both layers at once: tags and entities protected, and terms locked in the text between them. */
module LockedHtml {
  import opened Text
  import opened Dictionary
  import opened TermSpans
  import opened Placeholders
  import opened Sentence
  import T = TelegramHtml

  /** One visible segment, the spans chosen in it and the random token its locks use. */
  datatype Segment = Segment(text: string, spans: seq<Span>, token: string)

  ghost predicate SegmentOk(s: Segment, lockable: seq<Lockable>)
  {
    IsSelection(s.text, Surfaces(lockable), s.spans) && Placed(s, lockable)
  }

  ghost predicate Placed(s: Segment, lockable: seq<Lockable>)
  {
    Indexed(s.spans, lockable) && Follows(s.text, s.spans, 0) && IsToken(s.token)
  }

  ghost predicate AllPlaced(segments: seq<Segment>, lockable: seq<Lockable>)
  {
    forall s <- segments :: Placed(s, lockable)
  }

  ghost predicate TokensDiffer(segments: seq<Segment>)
  {
    forall i, j :: 0 <= i < j < |segments| ==> segments[i].token != segments[j].token
  }

  /** The segments with their terms locked. */
  function LockedTexts(segments: seq<Segment>): (r: seq<string>)
    requires forall s <- segments :: Follows(s.text, s.spans, 0)
    ensures |r| == |segments|
  {
    if segments == [] then []
    else
      var s := segments[0];
      [Weave(Gaps(s.text, s.spans, 0), Names(Term, s.token, 0, |s.spans|))] + LockedTexts(segments[1..])
  }

  /** The segments with their terms in official form. */
  function OfficialTexts(segments: seq<Segment>, lockable: seq<Lockable>, toEn: bool): (r: seq<string>)
    requires forall s <- segments :: Indexed(s.spans, lockable) && Follows(s.text, s.spans, 0)
    ensures |r| == |segments|
  {
    if segments == [] then []
    else [OfficialText(segments[0].text, segments[0].spans, lockable, toEn)] + OfficialTexts(segments[1..], lockable, toEn)
  }

  function AllLocks(segments: seq<Segment>, lockable: seq<Lockable>): seq<Lock>
    requires forall s <- segments :: Indexed(s.spans, lockable)
  {
    if segments == [] then [] else LocksFor(segments[0].spans, lockable, segments[0].token, 0) + AllLocks(segments[1..], lockable)
  }

  function AllKeys(segments: seq<Segment>): seq<Key>
  {
    if segments == [] then [] else TermKeys(segments[0].token, |segments[0].spans|) + AllKeys(segments[1..])
  }

  function SegmentPieces(s: Segment, lockable: seq<Lockable>, toEn: bool): seq<Piece>
    requires Indexed(s.spans, lockable) && Follows(s.text, s.spans, 0)
  {
    Woven(Term, s.token, 0, Gaps(s.text, s.spans, 0), Officials(s.spans, lockable, toEn))
  }

  /** Every segment's pieces, with the tag placeholders as plain text between them. */
  function AllPieces(segments: seq<Segment>, names: seq<string>, lockable: seq<Lockable>, toEn: bool): seq<Piece>
    requires forall s <- segments :: Indexed(s.spans, lockable) && Follows(s.text, s.spans, 0)
    requires |segments| == |names| + 1
  {
    var first := SegmentPieces(segments[0], lockable, toEn);
    if names == [] then first else first + [Plain(names[0])] + AllPieces(segments[1..], names[1..], lockable, toEn)
  }

  // ---------------------------------------------------------------- what the pieces are

  lemma {:induction false} AllPiecesShow(segments: seq<Segment>, names: seq<string>, lockable: seq<Lockable>,
          toEn: bool)
    requires AllPlaced(segments, lockable) && |segments| == |names| + 1
    ensures Render(AllPieces(segments, names, lockable, toEn)) == Weave(LockedTexts(segments), names)
    ensures Settle(AllPieces(segments, names, lockable, toEn)) == Weave(OfficialTexts(segments, lockable, toEn), names)
  {
    hide Placeholder, Render, Settle, Woven, Gaps, Officials, Indexed, Follows;
    var s := segments[0];
    assert s in segments && Placed(s, lockable);
    WovenShows(Term, s.token, 0, Gaps(s.text, s.spans, 0), Officials(s.spans, lockable, toEn));
    if names != [] {
      assert forall x <- segments[1..] :: x in segments;
      var first, rest := SegmentPieces(s, lockable, toEn), AllPieces(segments[1..], names[1..], lockable, toEn);
      AllPiecesShow(segments[1..], names[1..], lockable, toEn);
      RenderJoin(first + [Plain(names[0])], rest);
      RenderJoin(first, [Plain(names[0])]);
      RenderLast(names[0]);
    }
  }

  ghost predicate HasToken(key: Key, segments: seq<Segment>)
  {
    exists s <- segments :: key.token == s.token
  }

  lemma {:induction false} KeysHaveTokens(segments: seq<Segment>)
    ensures forall key <- AllKeys(segments) :: HasToken(key, segments)
  {
    if segments != [] {
      KeysHaveTokens(segments[1..]);
      forall key <- AllKeys(segments) ensures HasToken(key, segments)
      {
        if key in TermKeys(segments[0].token, |segments[0].spans|) {
          assert segments[0] in segments && key.token == segments[0].token;
        } else {
          assert HasToken(key, segments[1..]);
        }
      }
    }
  }

  /** Different tokens keep the segments' keys apart. */
  lemma FirstApart(segments: seq<Segment>)
    requires segments != [] && TokensDiffer(segments)
    ensures forall key <- AllKeys(segments[1..]) :: key.token != segments[0].token
  {
    KeysHaveTokens(segments[1..]);
    forall key <- AllKeys(segments[1..]) ensures key.token != segments[0].token
    {
      assert HasToken(key, segments[1..]);
      var s :| s in segments[1..] && key.token == s.token;
      var i :| 0 <= i < |segments[1..]| && segments[1..][i] == s;
      assert segments[0].token != segments[i + 1].token;
    }
  }

  /** Each lock's placeholder stands exactly once. */
  lemma {:induction false} AllPiecesTimes(segments: seq<Segment>, names: seq<string>, lockable: seq<Lockable>,
          toEn: bool)
    requires AllPlaced(segments, lockable) && |segments| == |names| + 1 && TokensDiffer(segments)
    ensures forall key :: Times(AllPieces(segments, names, lockable, toEn), key) == if key in AllKeys(segments) then 1 else 0
  {
    hide Placeholder, Woven, Gaps, Officials, Indexed, Follows, Times;
    var s := segments[0];
    assert s in segments && Placed(s, lockable);
    var first, keys := SegmentPieces(s, lockable, toEn), TermKeys(s.token, |s.spans|);
    WovenHoles(Term, s.token, 0, Gaps(s.text, s.spans, 0), Officials(s.spans, lockable, toEn));
    forall key: Key ensures Times(first, key) == if key in keys then 1 else 0
    {
      if key.kind == Term && key.token == s.token && key.number < |s.spans| { assert key == keys[key.number]; }
    }
    if names == [] {
      assert AllKeys(segments[1..]) == [];
    } else {
      assert forall x <- segments[1..] :: x in segments;
      var rest := AllPieces(segments[1..], names[1..], lockable, toEn);
      forall i, j | 0 <= i < j < |segments[1..]| ensures segments[1..][i].token != segments[1..][j].token
      {
        assert segments[i + 1].token != segments[j + 1].token;
      }
      AllPiecesTimes(segments[1..], names[1..], lockable, toEn);
      TimesJoin(first + [Plain(names[0])], rest);
      TimesJoin(first, [Plain(names[0])]);
      PlainTimes(names[0]);
      FirstApart(segments);
    }
  }

  lemma PlainTimes(s: string)
    ensures forall key :: Times([Plain(s)], key) == 0
  {
    assert [Plain(s)][1..] == [];
  }

  /** The locks of all segments belong to their keys, and the holes to the locks. */
  lemma {:induction false} AllBelong(segments: seq<Segment>, names: seq<string>, lockable: seq<Lockable>, toEn: bool)
    requires AllPlaced(segments, lockable) && |segments| == |names| + 1 && TokensDiffer(segments)
    ensures Named(AllLocks(segments, lockable), AllKeys(segments))
    ensures Belongs(AllPieces(segments, names, lockable, toEn), AllLocks(segments, lockable), AllKeys(segments), toEn)
  {
    hide Placeholder, Woven, Gaps, Officials, Indexed, Follows, Belongs;
    var s := segments[0];
    assert s in segments && Placed(s, lockable);
    var first, keys, locks := SegmentPieces(s, lockable, toEn), TermKeys(s.token, |s.spans|), LocksFor(s.spans,
        lockable, s.token, 0);
    LockedPieces(s.text, lockable, s.token, s.spans, locks, toEn);
    if names == [] {
      assert AllKeys(segments[1..]) == [] && AllLocks(segments[1..], lockable) == [];
      assert AllKeys(segments) == keys && AllLocks(segments, lockable) == locks;
    } else {
      forall i, j | 0 <= i < j < |segments[1..]| ensures segments[1..][i].token != segments[1..][j].token
      {
        assert segments[i + 1].token != segments[j + 1].token;
      }
      AllBelong(segments[1..], names[1..], lockable, toEn);
      FirstApart(segments);
      NamedJoin(locks, keys, AllLocks(segments[1..], lockable), AllKeys(segments[1..]));
      BelongsJoin(first, names[0], AllPieces(segments[1..], names[1..], lockable, toEn),
                  locks, keys, AllLocks(segments[1..], lockable), AllKeys(segments[1..]), toEn);
    }
  }

  lemma NamedJoin(a: seq<Lock>, m: seq<Key>, b: seq<Lock>, n: seq<Key>)
    requires Named(a, m) && Named(b, n) && forall key <- m :: key !in n
    ensures Named(a + b, m + n)
  {
    hide Placeholder;
    forall i, j | 0 <= i < j < |m + n| ensures (m + n)[i] != (m + n)[j]
    {
      if i < |m| <= j { assert m[i] in m && n[j - |m|] in n; }
    }
  }

  ghost predicate HasLock(p: Piece, locks: seq<Lock>, keys: seq<Key>, toEn: bool)
    requires p.Hole? && |locks| == |keys|
  {
    exists k :: 0 <= k < |keys| && p.key == keys[k] && p.official == locks[k].Official(toEn)
  }

  lemma BelongsJoin(p: seq<Piece>, name: string, q: seq<Piece>, a: seq<Lock>, m: seq<Key>, b: seq<Lock>, n: seq<Key>,
          toEn: bool)
    requires |a| == |m| && |b| == |n| && Belongs(p, a, m, toEn) && Belongs(q, b, n, toEn)
    ensures Belongs(p + [Plain(name)] + q, a + b, m + n, toEn)
  {
    hide Placeholder;
    forall x <- p + [Plain(name)] + q | x.Hole? ensures HasLock(x, a + b, m + n, toEn)
    {
      if x in p {
        var k :| 0 <= k < |m| && x.key == m[k] && x.official == a[k].Official(toEn);
        assert (m + n)[k] == m[k] && (a + b)[k] == a[k];
      } else {
        assert x in q;
        var k :| 0 <= k < |n| && x.key == n[k] && x.official == b[k].Official(toEn);
        assert (m + n)[|m| + k] == n[k] && (a + b)[|m| + k] == b[k];
      }
    }
  }

  // ---------------------------------------------------------------- locking and restoring

  /** What `_lock_html_terms` promises. */
  ghost predicate IsLockedHtml(html: string, p: T.Protected, segments: seq<Segment>, lockable: seq<Lockable>,
          locked: LockedSentence)
  {
    && |segments| == |T.Tokens(html)| + 1 == |p.structures| + 1
    && (forall m :: 0 <= m < |segments| ==> segments[m].text == T.Visible(html)[m] && SegmentOk(segments[m], lockable))
    && AllPlaced(segments, lockable)
    && locked.text == Weave(LockedTexts(segments), T.PlaceholdersOf(p.structures))
    && locked.locks == AllLocks(segments, lockable)
  }

  /** `_restore_html`: terms first, then tags and entities. */
  ghost function RestoreHtml(p: T.Protected, locked: LockedSentence, translated: string, toEn: bool,
          valid: string -> bool): Option<string>
    requires T.Replaceable(p.structures) && forall l <- locked.locks :: |l.placeholder| > 0
  {
    match Sentence.Restore(locked.locks, translated, toEn)
    case None => None
    case Some(text) => T.Restored(p, text, valid)
  }

  /** No random token occurs in any text the two restores work towards. */
  ghost predicate TokensFar(html: string, token: string, p: T.Protected, segments: seq<Segment>,
          lockable: seq<Lockable>, toEn: bool)
    requires AllPlaced(segments, lockable) && |segments| == |T.Tokens(html)| + 1 == |p.structures| + 1
  {
    var officials := OfficialTexts(segments, lockable, toEn);
    && TokensDiffer(segments)
    && (forall s <- segments :: !Contains(Weave(officials, T.PlaceholdersOf(p.structures)), s.token))
    && !Contains(T.Join(officials), token) && !Contains(Weave(officials, T.Tokens(html)), token)
  }

  /**
   Locking terms in the visible text and restoring both layers: the result is the original with
   each chosen term in official form, and its tags and entities are the original's, in order.  It
   is refused exactly when the official text brings markup or a reserved pattern, or is not valid.
   */
  lemma BothLayersRestore(html: string, token: string, p: T.Protected, segments: seq<Segment>, lockable: seq<Lockable>,
                          locked: LockedSentence, toEn: bool, valid: string -> bool)
    requires T.IsProtected(html, token, p) && IsToken(token) && |p.structures| == |T.Tokens(html)|
    requires IsLockedHtml(html, p, segments, lockable, locked)
    requires TokensFar(html, token, p, segments, lockable, toEn)
    ensures T.Replaceable(p.structures) && forall l <- locked.locks :: |l.placeholder| > 0
    ensures var officials := OfficialTexts(segments, lockable, toEn);
            var result := Weave(officials, T.Tokens(html));
            && RestoreHtml(p, locked, locked.text, toEn, valid)
               == (if T.Clean(T.Join(officials)) && valid(result) then Some(result) else None)
            && (T.Clean(T.Join(officials)) ==> T.Tokens(result) == T.Tokens(html))
  {
    hide Placeholder, Render, Settle, SegmentOk, Indexed, Follows, T.Restored, T.Clean, T.Tokens, T.Visible,
        LockedTexts, OfficialTexts,
         AllPieces, AllKeys, AllLocks, Named, Belongs, Times;
    var names := T.PlaceholdersOf(p.structures);
    var pieces, keys := AllPieces(segments, names, lockable, toEn), AllKeys(segments);
    AllPiecesShow(segments, names, lockable, toEn);
    AllPiecesTimes(segments, names, lockable, toEn);
    AllBelong(segments, names, lockable, toEn);
    KeysHaveTokens(segments);
    forall key <- keys ensures !Contains(Settle(pieces), key.token) { assert HasToken(key, segments); }
    RestoreIff(locked.locks, keys, pieces, toEn);
    T.PlaceholdersAreNames(token, T.Tokens(html));
    T.RewordedRestores(html, token, p, OfficialTexts(segments, lockable, toEn), valid);
  }

  /** `_lock_html_terms`, a token drawn for each segment. */
  method LockHtmlTerms(p: T.Protected, lockable: seq<Lockable>, tokens: seq<string>, ghost html: string,
          ghost token: string)
      returns (locked: LockedSentence, segments: seq<Segment>)
    requires T.IsProtected(html, token, p) && IsToken(token) && !Contains(html, token)
    requires |tokens| == |p.structures| + 1 && |p.structures| == |T.Tokens(html)| && forall t <- tokens :: IsToken(t)
    ensures IsLockedHtml(html, p, segments, lockable, locked)
    ensures forall m :: 0 <= m < |segments| ==> segments[m].token == tokens[m]
  {
    hide Placeholder, SegmentOk, T.Tokens, T.Visible, LockedTexts, AllLocks, IsSelection;
    var visible := T.VisibleSegments(p, html, token);
    var texts: seq<string>, locks: seq<Lock> := [], [];
    segments := [];
    NothingLocked(lockable);
    for m := 0 to |tokens|
      invariant |segments| == m && AllPlaced(segments, lockable)
      invariant forall k :: 0 <= k < m ==> segments[k].text == visible.value[k] && segments[k].token == tokens[k]
                                           && SegmentOk(segments[k], lockable)
      invariant texts == LockedTexts(segments) && locks == AllLocks(segments, lockable)
    {
      var spans;
      var part;
      part, spans := LockTerms(visible.value[m], lockable, tokens[m]);
      var s := Segment(visible.value[m], spans, tokens[m]);
      assert Placed(s, lockable) && SegmentOk(s, lockable) by { SegmentGood(s, lockable, part); }
      LockedOneMore(segments, s, lockable);
      texts := texts + [part.text];
      locks := locks + part.locks;
      segments := segments + [s];
    }
    var text := T.Interleave(p, texts);
    locked := LockedSentence(text.value, locks);
  }

  lemma SegmentGood(s: Segment, lockable: seq<Lockable>, part: LockedSentence)
    requires IsLocked(s.text, lockable, s.token, s.spans, part) && IsToken(s.token)
    ensures SegmentOk(s, lockable) && Placed(s, lockable)
  {
    hide IsSelection;
  }

  lemma NothingLocked(lockable: seq<Lockable>)
    ensures LockedTexts([]) == [] && AllLocks([], lockable) == []
  {
  }

  lemma {:induction false} LockedOneMore(segments: seq<Segment>, s: Segment, lockable: seq<Lockable>)
    requires AllPlaced(segments, lockable) && Placed(s, lockable)
    ensures LockedTexts(segments + [s])
        == LockedTexts(segments) + [Weave(Gaps(s.text, s.spans, 0), Names(Term, s.token, 0, |s.spans|))]
    ensures AllLocks(segments + [s], lockable) == AllLocks(segments, lockable) + LocksFor(s.spans, lockable, s.token, 0)
  {
    hide Placeholder, LocksFor, Gaps, Indexed, Follows;
    var longer := segments + [s];
    forall x <- longer ensures Placed(x, lockable) {}
    if segments == [] {
      assert longer[1..] == [] && longer[0] == s;
    } else {
      assert longer[1..] == segments[1..] + [s] && longer[0] == segments[0] && Placed(segments[0], lockable);
      LockedOneMore(segments[1..], s, lockable);
      Associative(LocksFor(segments[0].spans, lockable, segments[0].token, 0), AllLocks(segments[1..], lockable),
          LocksFor(s.spans, lockable, s.token, 0));
    }
  }
}
