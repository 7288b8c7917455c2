/** Opaque placeholders: what a text with holes looks like, and where a placeholder can occur in it. */
module Placeholders {
  import opened Text

  datatype Kind = Term | Html

  function Word(kind: Kind): (s: string)
    ensures |s| == 4
  {
    if kind.Term? then "TERM" else "HTML"
  }

  /** `secrets.token_hex(8)`. */
  predicate IsToken(token: string) { |token| == 16 && AllHex(token) }

  function Prefix(kind: Kind, token: string): string
  {
    "__WUWA_" + Word(kind) + "_" + token + "_"
  }

  function Placeholder(kind: Kind, token: string, number: nat): string
  {
    Prefix(kind, token) + Padded(number) + "__"
  }

  /** What identifies a placeholder. */
  datatype Key = Key(kind: Kind, token: string, number: nat) {
    function Name(): string { Placeholder(kind, token, number) }
  }

  /** A stretch of text, or a placeholder together with the string meant to replace it. */
  datatype Piece = Plain(text: string) | Hole(key: Key, official: string)

  function Shown(p: Piece): string { if p.Plain? then p.text else p.key.Name() }

  function Meant(p: Piece): string { if p.Plain? then p.text else p.official }

  /** The text with its placeholders showing. */
  function Render(pieces: seq<Piece>): string
  {
    if pieces == [] then "" else Shown(pieces[0]) + Render(pieces[1..])
  }

  /** The text with every placeholder replaced. */
  function Settle(pieces: seq<Piece>): string
  {
    if pieces == [] then "" else Meant(pieces[0]) + Settle(pieces[1..])
  }

  ghost predicate TokensOk(pieces: seq<Piece>)
  {
    forall p <- pieces :: p.Hole? ==> IsToken(p.key.token)
  }

  // ---------------------------------------------------------------- concatenation

  lemma Associative<T>(a: seq<T>, b: seq<T>, c: seq<T>)
    ensures a + (b + c) == (a + b) + c
  {
  }

  lemma {:induction false} RenderJoin(a: seq<Piece>, b: seq<Piece>)
    ensures Render(a + b) == Render(a) + Render(b)
    ensures Settle(a + b) == Settle(a) + Settle(b)
  {
    hide Shown, Meant;
    if a == [] {
      assert a + b == b;
    } else {
      assert (a + b)[1..] == a[1..] + b && (a + b)[0] == a[0];
      RenderJoin(a[1..], b);
      Associative(Shown(a[0]), Render(a[1..]), Render(b));
      Associative(Meant(a[0]), Settle(a[1..]), Settle(b));
    }
  }

  lemma RenderAround(pieces: seq<Piece>, j: nat)
    requires j < |pieces|
    ensures Render(pieces) == Render(pieces[..j]) + Shown(pieces[j]) + Render(pieces[j + 1..])
    ensures Settle(pieces) == Settle(pieces[..j]) + Meant(pieces[j]) + Settle(pieces[j + 1..])
  {
    hide Shown, Meant;
    assert pieces == pieces[..j] + pieces[j..];
    assert pieces[j..][1..] == pieces[j + 1..];
    RenderJoin(pieces[..j], pieces[j..]);
    Associative(Render(pieces[..j]), Shown(pieces[j]), Render(pieces[j + 1..]));
    Associative(Settle(pieces[..j]), Meant(pieces[j]), Settle(pieces[j + 1..]));
  }

  lemma AbsentParts(a: string, b: string, needle: string)
    requires !Contains(a + b, needle)
    ensures !Contains(a, needle) && !Contains(b, needle)
  {
    if at: nat :| OccursAt(a, needle, at) {
      assert (a + b)[at..at + |needle|] == a[at..at + |needle|];
      assert OccursAt(a + b, needle, at);
    }
    if at: nat :| OccursAt(b, needle, at) {
      assert (a + b)[|a| + at..|a| + at + |needle|] == b[at..at + |needle|];
      assert OccursAt(a + b, needle, |a| + at);
    }
  }

  lemma OccursInHead(a: string, b: string, needle: string, at: nat)
    requires OccursAt(a + b, needle, at) && at + |needle| <= |a|
    ensures OccursAt(a, needle, at)
  {
    assert (a + b)[at..at + |needle|] == a[at..at + |needle|];
  }

  lemma OccursInTail(a: string, b: string, needle: string, at: nat)
    requires OccursAt(a + b, needle, at) && at >= |a|
    ensures OccursAt(b, needle, at - |a|)
  {
    assert (a + b)[at..at + |needle|] == b[at - |a|..at - |a| + |needle|];
  }

  // ---------------------------------------------------------------- where a placeholder can be

  /** A token with the two characters before it: enough of a placeholder to recognise it by. */
  function Mark(kind: Kind, token: string): string
  {
    [Word(kind)[3]] + "_" + token
  }

  lemma MarkShape(text: string, kind: Kind, token: string, at: nat)
    requires IsToken(token) && OccursAt(text, Mark(kind, token), at)
    ensures at + 18 <= |text| && OccursAt(text, token, at + 2)
    ensures text[at] == Word(kind)[3] && text[at + 1] == '_'
    ensures forall k :: at + 2 <= k < at + 18 ==> text[k] == token[k - at - 2] && IsHex(text[k])
  {
    var m := Mark(kind, token);
    assert m == text[at..at + 18] && m[2..] == token;
    assert text[at + 2..at + 18] == m[2..];
    assert forall k :: at + 2 <= k < at + 18 ==> text[k] == m[k - at];
  }

  /** How a placeholder is laid out. */
  lemma PlaceholderShape(kind: Kind, token: string, number: nat)
    requires IsToken(token)
    ensures var p, d := Placeholder(kind, token, number), Padded(number);
            && |p| == 31 + |d| && p[..29] == Prefix(kind, token) && p[29..29 + |d|] == d
            && (forall k :: 0 <= k < 12 ==> !IsHex(p[k])) && p[10] == Word(kind)[3]
            && (forall k :: 12 <= k < 28 ==> p[k] == token[k - 12] && IsHex(p[k]))
            && (forall k :: 29 <= k < 29 + |d| ==> p[k] == d[k - 29] && IsDigit(p[k]))
            && p[11] == '_' && p[28] == '_' && p[29 + |d|] == '_' && p[30 + |d|] == '_'
            && OccursAt(p, Mark(kind, token), 10)
  {
    var head := "__WUWA_" + Word(kind) + "_";
    var p, d := Placeholder(kind, token, number), Padded(number);
    assert p == head + token + "_" + d + "__";
    assert forall k :: 0 <= k < 12 ==> p[k] == head[k];
    assert p[12..28] == token;
    assert p[29..29 + |d|] == d;
    assert p[10..28] == Mark(kind, token);
  }

  /**
   A mark cannot straddle a placeholder's edge: underscores close the token on both sides, and the
   placeholder's own number, however long, is not preceded by the fixed word.
   */
  lemma Window(a: string, hole: Piece, b: string, kind: Kind, token: string, at: nat)
    requires hole.Hole? && IsToken(hole.key.token) && IsToken(token)
    requires OccursAt(a + hole.key.Name() + b, Mark(kind, token), at)
    ensures || OccursAt(a, token, at + 2)
            || (at == |a| + 10 && kind == hole.key.kind && token == hole.key.token)
            || (at >= |a| + |hole.key.Name()| && OccursAt(b, Mark(kind, token), at - |a| - |hole.key.Name()|))
  {
    hide Placeholder, Mark;
    var p, n := hole.key.Name(), |a|;
    var text := a + p + b;
    MarkShape(text, kind, token, at);
    if at + 18 <= n {
      Associative(a, p, b);
      OccursInHead(a, p + b, token, at + 2);
    } else if at >= n + |p| {
      OccursInTail(a + p, b, Mark(kind, token), at);
    } else {
      Inside(text, n, hole, kind, token, at);
    }
  }

  lemma Inside(text: string, n: nat, hole: Piece, kind: Kind, token: string, at: nat)
    requires hole.Hole? && IsToken(hole.key.token) && IsToken(token)
    requires n + |hole.key.Name()| <= |text|
        && forall k :: 0 <= k < |hole.key.Name()| ==> text[n + k] == hole.key.Name()[k]
    requires at + 18 <= |text| && forall k :: at + 2 <= k < at + 18 ==> text[k] == token[k - at - 2] && IsHex(text[k])
    requires text[at + 1] == '_' && text[at] == Word(kind)[3]
    requires n < at + 18 && at < n + |hole.key.Name()|
    ensures at == n + 10 && kind == hole.key.kind && token == hole.key.token
  {
    hide Placeholder;
    var p := hole.key.Name();
    PlaceholderShape(hole.key.kind, hole.key.token, hole.key.number);
    forall k | n <= k < n + 12 ensures !IsHex(text[k]) { assert text[k] == p[k - n]; }
    forall k | n + 11 <= k < n + |p| ensures text[k] != 'M' && text[k] != 'L'
    {
      assert text[k] == p[k - n];
      assert k - n == 11 || IsHex(p[k - n]) || k - n == 28 || IsDigit(p[k - n]) || k - n >= |p| - 2;
    }
    assert !IsHex(text[n]) && n < at + 2;
    assert IsHex(text[at + 2]) && at >= n + 10;
    assert text[n + 10] == p[10] == Word(hole.key.kind)[3];
    forall k | 0 <= k < 16 ensures token[k] == hole.key.token[k]
    {
      assert token[k] == text[at + 2 + k] == p[12 + k];
    }
  }

  /** Wherever a token's mark occurs in a rendered text, a hole with that token stands around it. */
  lemma {:induction false} MarkFindsHole(head: string, pieces: seq<Piece>, kind: Kind, token: string, at: nat)
      returns (j: nat)
    requires TokensOk(pieces) && IsToken(token)
    requires OccursAt(head + Render(pieces), Mark(kind, token), at)
    requires !Contains(head + Settle(pieces), token)
    ensures j < |pieces| && pieces[j].Hole? && pieces[j].key.kind == kind && pieces[j].key.token == token
    ensures at == |head| + |Render(pieces[..j])| + 10
    decreases |pieces|
  {
    hide Placeholder, Mark;
    if pieces == [] {
      assert head + Render(pieces) == head + Settle(pieces);
      MarkShape(head + Render(pieces), kind, token, at);
      assert false;
    } else {
      var p, rest := pieces[0], pieces[1..];
      if p.Plain? {
        Associative(head, p.text, Render(rest));
        Associative(head, p.text, Settle(rest));
        j := MarkFindsHole(head + p.text, rest, kind, token, at);
        j := j + 1;
        assert pieces[..j] == [p] + rest[..j - 1];
      } else {
        j := MarkPastHole(head, pieces, kind, token, at);
      }
    }
  }

  lemma {:induction false} MarkPastHole(head: string, pieces: seq<Piece>, kind: Kind, token: string, at: nat)
      returns (j: nat)
    requires TokensOk(pieces) && IsToken(token) && pieces != [] && pieces[0].Hole?
    requires OccursAt(head + Render(pieces), Mark(kind, token), at)
    requires !Contains(head + Settle(pieces), token)
    ensures j < |pieces| && pieces[j].Hole? && pieces[j].key.kind == kind && pieces[j].key.token == token
    ensures at == |head| + |Render(pieces[..j])| + 10
    decreases |pieces|, 0
  {
    hide Placeholder, Mark;
    var p, rest := pieces[0], pieces[1..];
    var name := p.key.Name();
    Associative(head, name, Render(rest));
    Window(head, p, Render(rest), kind, token, at);
    if OccursAt(head, token, at + 2) {
      AbsentParts(head, Settle(pieces), token);
      assert false;
    } else if at == |head| + 10 && kind == p.key.kind && token == p.key.token {
      j := 0;
    } else {
      AbsentParts(head, Settle(pieces), token);
      AbsentParts(p.official, Settle(rest), token);
      assert "" + Render(rest) == Render(rest) && "" + Settle(rest) == Settle(rest);
      j := MarkFindsHole("", rest, kind, token, at - |head| - |name|);
      j := j + 1;
      assert pieces[..j] == [p] + rest[..j - 1];
      assert Render(pieces[..j]) == name + Render(rest[..j - 1]);
    }
  }

  // ---------------------------------------------------------------- counting and filling

  ghost predicate IsHole(p: Piece, key: Key) { p.Hole? && p.key == key }

  /** How many holes carry a key. */
  function Times(pieces: seq<Piece>, key: Key): nat
  {
    if pieces == [] then 0
    else (if pieces[0].Hole? && pieces[0].key == key then 1 else 0) + Times(pieces[1..], key)
  }

  /** The same text with one kind of hole filled in. */
  function Fill(pieces: seq<Piece>, key: Key, official: string): (r: seq<Piece>)
    ensures |r| == |pieces|
    ensures forall i :: 0 <= i < |r| ==> r[i] == if pieces[i].Hole? && pieces[i].key == key then Plain(official) else pieces[i]
  {
    if pieces == [] then []
    else
      var first := if pieces[0].Hole? && pieces[0].key == key then Plain(official) else pieces[0];
      [first] + Fill(pieces[1..], key, official)
  }

  function Start(pieces: seq<Piece>, j: nat): nat
    requires j <= |pieces|
  {
    |Render(pieces[..j])|
  }

  /** A placeholder occurs exactly where a hole with its key stands. */
  lemma OccurrenceIsHole(pieces: seq<Piece>, key: Key, at: nat) returns (j: nat)
    requires TokensOk(pieces) && IsToken(key.token) && !Contains(Settle(pieces), key.token)
    requires OccursAt(Render(pieces), key.Name(), at)
    ensures j < |pieces| && IsHole(pieces[j], key) && at == Start(pieces, j)
  {
    hide Placeholder, Mark, Render, Settle, Prefix, Contains;
    var text := Render(pieces);
    MarkInPlaceholder(text, key, at);
    assert "" + text == text && "" + Settle(pieces) == Settle(pieces);
    j := MarkFindsHole("", pieces, key.kind, key.token, at + 10);
    HoleOccurs(pieces, j);
    SameHole(text, key, pieces[j].key, at);
  }

  /** Two placeholders with one token at the same place are the same one. */
  lemma SameHole(text: string, a: Key, b: Key, at: nat)
    requires IsToken(a.token) && a.kind == b.kind && a.token == b.token
    requires OccursAt(text, a.Name(), at) && OccursAt(text, b.Name(), at)
    ensures a == b
  {
    hide Placeholder;
    assert forall k :: 0 <= k < |a.Name()| ==> text[at + k] == a.Name()[k];
    assert forall k :: 0 <= k < |b.Name()| ==> text[at + k] == b.Name()[k];
    SameNumber(a, b);
  }

  lemma MarkInPlaceholder(text: string, key: Key, at: nat)
    requires IsToken(key.token) && OccursAt(text, key.Name(), at)
    ensures OccursAt(text, Mark(key.kind, key.token), at + 10)
  {
    hide Placeholder, Mark;
    PlaceholderShape(key.kind, key.token, key.number);
    OccursInside(text, key.Name(), Mark(key.kind, key.token), at, 10);
  }

  lemma OccursInside(text: string, outer: string, inner: string, at: nat, k: nat)
    requires OccursAt(text, outer, at) && OccursAt(outer, inner, k)
    ensures OccursAt(text, inner, at + k)
  {
    forall i | 0 <= i < |inner| ensures text[at + k + i] == inner[i]
    {
      assert outer[k + i] == outer[k..k + |inner|][i] && text[at..at + |outer|][k + i] == text[at + (k + i)];
    }
    assert text[at + k..at + k + |inner|] == inner;
  }

  lemma SameNumber(a: Key, b: Key)
    requires IsToken(a.token) && a.kind == b.kind && a.token == b.token
    requires forall k :: 0 <= k < |a.Name()| && k < |b.Name()| ==> a.Name()[k] == b.Name()[k]
    ensures a == b
  {
    hide Placeholder;
    PlaceholderShape(a.kind, a.token, a.number);
    PlaceholderShape(b.kind, b.token, b.number);
    var c, d := Padded(a.number), Padded(b.number);
    assert 29 + |c| < |b.Name()| ==> b.Name()[29 + |c|] == '_';
    assert 29 + |d| < |a.Name()| ==> a.Name()[29 + |d|] == '_';
    assert |c| == |d|;
    assert c == d by {
      forall k | 0 <= k < |c| ensures c[k] == d[k] { assert a.Name()[29 + k] == b.Name()[29 + k]; }
    }
    PaddedInjective(a.number, b.number);
  }

  lemma HoleOccurs(pieces: seq<Piece>, j: nat)
    requires j < |pieces| && pieces[j].Hole?
    ensures OccursAt(Render(pieces), pieces[j].key.Name(), Start(pieces, j))
  {
    hide Placeholder;
    RenderAround(pieces, j);
  }

  /** Different holes stand apart. */
  lemma HolesApart(pieces: seq<Piece>, i: nat, j: nat)
    requires i < j < |pieces| && pieces[i].Hole?
    ensures Start(pieces, i) + |pieces[i].key.Name()| <= Start(pieces, j)
  {
    hide Placeholder;
    assert pieces[..j][..i] == pieces[..i];
    RenderAround(pieces[..j], i);
  }

  lemma {:induction false} TimesAt(pieces: seq<Piece>, key: Key) returns (j: nat)
    requires Times(pieces, key) > 0
    ensures j < |pieces| && IsHole(pieces[j], key)
    ensures forall i :: 0 <= i < j ==> !IsHole(pieces[i], key)
    ensures Times(pieces, key) == 1 + Times(pieces[j + 1..], key)
  {
    if pieces[0].Hole? && pieces[0].key == key {
      j := 0;
    } else {
      j := TimesAt(pieces[1..], key);
      assert pieces[1..][j + 1..] == pieces[j + 2..];
      j := j + 1;
    }
  }

  lemma {:induction false} TimesZero(pieces: seq<Piece>, key: Key)
    ensures Times(pieces, key) == 0 <==> forall i :: 0 <= i < |pieces| ==> !IsHole(pieces[i], key)
  {
    if pieces != [] { TimesZero(pieces[1..], key); }
  }

  /** Counting a placeholder in the text tells whether exactly one hole carries its key. */
  lemma CountTells(pieces: seq<Piece>, key: Key)
    requires TokensOk(pieces) && IsToken(key.token) && !Contains(Settle(pieces), key.token)
    ensures |key.Name()| > 0 && (Count(Render(pieces), key.Name()) == 1 <==> Times(pieces, key) == 1)
  {
    hide Placeholder, Render, Settle;
    var text, name := Render(pieces), key.Name();
    PlaceholderShape(key.kind, key.token, key.number);
    if Times(pieces, key) == 0 {
      TimesZero(pieces, key);
      if at: nat :| OccursAt(text, name, at) {
        var j := OccurrenceIsHole(pieces, key, at);
        assert false;
      }
      assert Find(text, name, 0).None?;
    } else {
      var j := TimesAt(pieces, key);
      HoleOccurs(pieces, j);
      TimesZero(pieces[j + 1..], key);
      if Times(pieces, key) == 1 {
        OnlyHole(pieces, key, j, "");
      } else {
        var k := TimesAt(pieces[j + 1..], key);
        var other := j + 1 + k;
        assert IsHole(pieces[other], key);
        HoleOccurs(pieces, other);
        HolesApart(pieces, j, other);
        TwoOccurrences(text, name, Start(pieces, j), Start(pieces, other));
      }
    }
  }

  /** Replacing a placeholder that stands once fills exactly its hole. */
  lemma OnlyHole(pieces: seq<Piece>, key: Key, j: nat, official: string)
    requires TokensOk(pieces) && IsToken(key.token) && !Contains(Settle(pieces), key.token)
    requires j < |pieces| && forall i :: 0 <= i < |pieces| ==> (IsHole(pieces[i], key) <==> i == j)
    ensures |key.Name()| > 0 && Count(Render(pieces), key.Name()) == 1
    ensures Find(Render(pieces), key.Name(), 0) == Some(Start(pieces, j))
    ensures Replace(Render(pieces), key.Name(), official) == Render(Fill(pieces, key, official))
  {
    hide Placeholder, Render, Settle;
    var text, name, at := Render(pieces), key.Name(), Start(pieces, j);
    PlaceholderShape(key.kind, key.token, key.number);
    assert IsHole(pieces[j], key);
    HoleOccurs(pieces, j);
    forall q: nat | OccursAt(text, name, q) ensures q == at { var i := OccurrenceIsHole(pieces, key, q); }
    UniqueOccurrence(text, name, official, at);
    var filled := Fill(pieces, key, official);
    RenderAround(pieces, j);
    RenderAround(filled, j);
    assert filled[..j] == pieces[..j] by {
      forall i | 0 <= i < j ensures filled[i] == pieces[i] { assert !IsHole(pieces[i], key); }
    }
    assert filled[j + 1..] == pieces[j + 1..] by {
      forall i | j < i < |pieces| ensures filled[i] == pieces[i] { assert !IsHole(pieces[i], key); }
    }
    assert text[..at] == Render(pieces[..j]) && text[at + |name|..] == Render(pieces[j + 1..]);
  }

  /** Replacing a placeholder that stands once fills exactly its hole. */
  lemma ReplaceFills(pieces: seq<Piece>, key: Key, official: string)
    requires TokensOk(pieces) && IsToken(key.token) && !Contains(Settle(pieces), key.token)
    requires Times(pieces, key) == 1
    ensures |key.Name()| > 0
    ensures Replace(Render(pieces), key.Name(), official) == Render(Fill(pieces, key, official))
  {
    hide Placeholder;
    var j := TimesAt(pieces, key);
    TimesZero(pieces[j + 1..], key);
    forall i | 0 <= i < |pieces| ensures IsHole(pieces[i], key) <==> i == j
    {
      if i > j { assert pieces[i] == pieces[j + 1..][i - j - 1]; }
    }
    OnlyHole(pieces, key, j, official);
  }

  /** Filling a hole with what it was meant for changes no other hole and not the settled text. */
  lemma {:induction false} FillKeeps(pieces: seq<Piece>, key: Key, official: string)
    requires forall p <- pieces :: IsHole(p, key) ==> p.official == official
    ensures Settle(Fill(pieces, key, official)) == Settle(pieces)
    ensures Times(Fill(pieces, key, official), key) == 0
    ensures forall other: Key :: other != key ==> Times(Fill(pieces, key, official), other) == Times(pieces, other)
  {
    hide Placeholder;
    if pieces != [] {
      assert IsHole(pieces[0], key) ==> pieces[0].official == official;
      FillKeeps(pieces[1..], key, official);
      var r := Fill(pieces, key, official);
      assert r[1..] == Fill(pieces[1..], key, official);
    }
  }

  lemma {:induction false} NoHoles(pieces: seq<Piece>)
    requires forall p <- pieces :: p.Plain?
    ensures Render(pieces) == Settle(pieces)
  {
    if pieces != [] { NoHoles(pieces[1..]); }
  }

  // ---------------------------------------------------------------- segments between placeholders

  /** Segments with a filling between each two of them. */
  function Weave(segments: seq<string>, fillings: seq<string>): string
    requires |segments| == |fillings| + 1
  {
    if fillings == [] then segments[0]
    else (segments[0] + fillings[0]) + Weave(segments[1..], fillings[1..])
  }

  /** `count` placeholder names, numbered from `first`. */
  function Names(kind: Kind, token: string, first: nat, count: nat): (r: seq<string>)
    ensures |r| == count
    decreases count
  {
    if count == 0 then [] else [Placeholder(kind, token, first)] + Names(kind, token, first + 1, count - 1)
  }

  lemma {:induction false} NamesAt(kind: Kind, token: string, first: nat, count: nat)
    ensures forall k :: 0 <= k < count ==> Names(kind, token, first, count)[k] == Placeholder(kind, token, first + k)
    decreases count
  {
    hide Placeholder;
    if count > 0 { NamesAt(kind, token, first + 1, count - 1); }
  }

  /** Segments with a hole between each two of them, numbered from `first`. */
  function Woven(kind: Kind, token: string, first: nat, segments: seq<string>, officials: seq<string>): seq<Piece>
    requires |segments| == |officials| + 1
    decreases officials
  {
    if officials == [] then [Plain(segments[0])]
    else [Plain(segments[0]), Hole(Key(kind, token, first), officials[0])]
         + Woven(kind, token, first + 1, segments[1..], officials[1..])
  }

  lemma RenderLast(s: string)
    ensures Render([Plain(s)]) == s && Settle([Plain(s)]) == s
  {
    assert [Plain(s)][1..] == [];
  }

  lemma RenderTwo(a: Piece, b: Piece, rest: seq<Piece>)
    ensures Render([a, b] + rest) == (Shown(a) + Shown(b)) + Render(rest)
    ensures Settle([a, b] + rest) == (Meant(a) + Meant(b)) + Settle(rest)
  {
    hide Placeholder;
    assert ([a, b] + rest)[1..] == [b] + rest && ([b] + rest)[1..] == rest;
    Associative(Shown(a), Shown(b), Render(rest));
    Associative(Meant(a), Meant(b), Settle(rest));
  }

  lemma {:induction false} WovenShows(kind: Kind, token: string, first: nat, segments: seq<string>,
          officials: seq<string>)
    requires |segments| == |officials| + 1
    ensures Render(Woven(kind, token, first, segments, officials))
        == Weave(segments, Names(kind, token, first, |officials|))
    ensures Settle(Woven(kind, token, first, segments, officials)) == Weave(segments, officials)
    decreases officials
  {
    hide Placeholder, Render, Settle;
    if officials == [] {
      RenderLast(segments[0]);
    } else {
      RenderTwo(Plain(segments[0]), Hole(Key(kind, token, first), officials[0]),
                Woven(kind, token, first + 1, segments[1..], officials[1..]));
      WovenShows(kind, token, first + 1, segments[1..], officials[1..]);
      assert Names(kind, token, first, |officials|)[1..] == Names(kind, token, first + 1, |officials[1..]|);
    }
  }

  /** Each number stands once, in a hole meant for its own filling. */
  lemma {:induction false} WovenHoles(kind: Kind, token: string, first: nat, segments: seq<string>,
          officials: seq<string>)
    requires |segments| == |officials| + 1
    ensures var pieces := Woven(kind, token, first, segments, officials);
            && (forall p <- pieces :: p.Hole? ==> HoleAmong(p, kind, token, first, officials))
            && (forall key: Key :: Times(pieces, key)
                 == if key.kind == kind && key.token == token
                     && first <= key.number < first + |officials| then 1 else 0)
    decreases officials
  {
    hide Placeholder;
    if officials != [] {
      WovenHoles(kind, token, first + 1, segments[1..], officials[1..]);
      var pieces := Woven(kind, token, first, segments, officials);
      var rest := Woven(kind, token, first + 1, segments[1..], officials[1..]);
      assert pieces[1..][1..] == rest;
      forall p <- pieces | p.Hole? ensures HoleAmong(p, kind, token, first, officials)
      {
        if p != pieces[1] { assert p in rest && HoleAmong(p, kind, token, first + 1, officials[1..]); }
      }
    }
  }

  ghost predicate HoleAmong(p: Piece, kind: Kind, token: string, first: nat, officials: seq<string>)
  {
    && p.Hole? && p.key.kind == kind && p.key.token == token && first <= p.key.number < first + |officials|
    && p.official == officials[p.key.number - first]
  }

  /** Segments and holes alternate. */
  lemma {:induction false} WovenAt(kind: Kind, token: string, first: nat, segments: seq<string>, officials: seq<string>)
    requires |segments| == |officials| + 1
    ensures var pieces := Woven(kind, token, first, segments, officials);
            && |pieces| == 2 * |officials| + 1
            && (forall k :: 0 <= k < |segments| ==> pieces[2 * k] == Plain(segments[k]))
            && (forall k :: 0 <= k < |officials| ==> pieces[2 * k + 1] == Hole(Key(kind, token, first + k), officials[k]))
    decreases officials
  {
    hide Placeholder;
    if officials != [] {
      WovenAt(kind, token, first + 1, segments[1..], officials[1..]);
      var pieces, rest := Woven(kind, token, first, segments, officials), Woven(kind, token, first + 1,
          segments[1..], officials[1..]);
      forall k | 0 <= k < |segments| ensures pieces[2 * k] == Plain(segments[k])
      {
        if k > 0 { assert pieces[2 * k] == rest[2 * (k - 1)]; }
      }
      forall k | 0 <= k < |officials| ensures pieces[2 * k + 1] == Hole(Key(kind, token, first + k), officials[k])
      {
        if k > 0 { assert pieces[2 * k + 1] == rest[2 * (k - 1) + 1]; }
      }
    }
  }

  lemma {:induction false} TimesJoin(a: seq<Piece>, b: seq<Piece>)
    ensures forall key :: Times(a + b, key) == Times(a, key) + Times(b, key)
  {
    hide Placeholder;
    if a == [] {
      assert a + b == b;
    } else {
      assert (a + b)[1..] == a[1..] + b;
      TimesJoin(a[1..], b);
    }
  }

  lemma StartStep(pieces: seq<Piece>, j: nat)
    requires j < |pieces|
    ensures Start(pieces, j + 1) == Start(pieces, j) + |Shown(pieces[j])| <= |Render(pieces)|
    ensures Render(pieces)[Start(pieces, j)..Start(pieces, j + 1)] == Shown(pieces[j])
  {
    hide Placeholder, Render, Settle, Shown;
    RenderAround(pieces, j);
    var upto := pieces[..j + 1];
    assert upto[..j] == pieces[..j] && upto[j + 1..] == [];
    RenderAround(upto, j);
    RenderNothing();
  }

  lemma RenderNothing()
    ensures Render([]) == "" && Settle([]) == ""
  {
  }

  /** Searching from the start of piece `j` finds `name` right behind that piece, which reads `segment`. */
  ghost predicate FoundBehind(pieces: seq<Piece>, j: nat, name: string, segment: string)
  {
    && j + 2 <= |pieces| && Start(pieces, j) <= Start(pieces, j + 1)
    && Start(pieces, j + 2) == Start(pieces, j + 1) + |name| <= |Render(pieces)|
    && Find(Render(pieces), name, Start(pieces, j)) == Some(Start(pieces, j + 1))
    && Render(pieces)[Start(pieces, j)..Start(pieces, j + 1)] == segment
  }

  /** From the start of a plain piece, the placeholder found is the one that follows it. */
  lemma NextHole(pieces: seq<Piece>, j: nat, key: Key)
    requires TokensOk(pieces) && IsToken(key.token) && !Contains(Settle(pieces), key.token) && Times(pieces, key) == 1
    requires j + 1 < |pieces| && pieces[j].Plain? && IsHole(pieces[j + 1], key)
    ensures FoundBehind(pieces, j, key.Name(), pieces[j].text)
  {
    hide Placeholder, Render, Settle;
    StartStep(pieces, j);
    StartStep(pieces, j + 1);
    HoleOccurs(pieces, j + 1);
    var found := Find(Render(pieces), key.Name(), Start(pieces, j));
    assert found.Some? && found.value <= Start(pieces, j + 1);
    var i := OccurrenceIsHole(pieces, key, found.value);
    if i != j + 1 { TwiceCounted(pieces, key, i, j + 1); }
  }

  lemma {:induction false} TwiceCounted(pieces: seq<Piece>, key: Key, i: nat, j: nat)
    requires i < |pieces| && j < |pieces| && i != j && IsHole(pieces[i], key) && IsHole(pieces[j], key)
    ensures Times(pieces, key) >= 2
  {
    var first := TimesAtLeast(pieces, key, i);
    var rest := pieces[first + 1..];
    var other := if first == i then j else i;
    if other < first { assert false; }
    assert rest[other - first - 1] == pieces[other];
    TimesZero(rest, key);
  }

  lemma TimesAtLeast(pieces: seq<Piece>, key: Key, i: nat) returns (first: nat)
    requires i < |pieces| && IsHole(pieces[i], key)
    ensures first <= i && IsHole(pieces[first], key) && Times(pieces, key) == 1 + Times(pieces[first + 1..], key)
    ensures forall k :: 0 <= k < first ==> !IsHole(pieces[k], key)
  {
    TimesZero(pieces, key);
    first := TimesAt(pieces, key);
  }
}
