/** Telegram HTML with its tags and entities behind placeholders, and the checks before they return. */
module TelegramHtml {
  import opened Text
  import opened Placeholders

  // ---------------------------------------------------------------- tags and entities

  /** Where the tag that opens `s` ends, reading from `index`; quoted stretches are skipped. */
  function TagEnd(s: string, index: nat, quote: Option<char>): (r: Option<nat>)
    ensures r.Some? ==> index < r.value <= |s|
    decreases |s| - index
  {
    if index >= |s| then None
    else if quote.Some? then TagEnd(s, index + 1, if s[index] == quote.value then None else quote)
    else if s[index] == '"' || s[index] == '\'' then TagEnd(s, index + 1, Some(s[index]))
    else if s[index] == '>' then Some(index + 1)
    else TagEnd(s, index + 1, None)
  }

  /** `_tag_end`. */
  method TagEndLoop(text: string, start: nat) returns (r: Option<nat>)
    requires start < |text|
    ensures r == match TagEnd(text[start..], 1, None) case None => None case Some(n) => Some(start + n)
  {
    var quote: Option<char> := None;
    for index := start + 1 to |text|
      invariant TagEnd(text[start..], 1, None) == TagEnd(text[start..], index - start, quote)
    {
      var c := text[index];
      assert c == text[start..][index - start];
      if quote.Some? {
        if c == quote.value { quote := None; }
      } else if c == '"' || c == '\'' {
        quote := Some(c);
      } else if c == '>' {
        return Some(index + 1);
      }
    }
    r := None;
  }

  predicate IsAlpha(c: char) { 'A' <= c <= 'Z' || 'a' <= c <= 'z' }

  predicate IsAnyHex(c: char) { IsDigit(c) || 'A' <= c <= 'F' || 'a' <= c <= 'f' }

  /** What may stand between the ampersand and the semicolon. */
  predicate IsEntityBody(b: string)
  {
    || (|b| >= 3 && b[0] == '#' && (b[1] == 'x' || b[1] == 'X') && forall i :: 2 <= i < |b| ==> IsAnyHex(b[i]))
    || (|b| >= 2 && b[0] == '#' && forall i :: 1 <= i < |b| ==> IsDigit(b[i]))
    || (|b| >= 2 && IsAlpha(b[0]) && forall i :: 1 <= i < |b| ==> IsAlpha(b[i]) || IsDigit(b[i]))
  }

  /** The entity opening `s`; no body contains a semicolon, so the first one must close it. */
  function EntityLen(s: string): (r: Option<nat>)
    ensures r.Some? ==> 3 < r.value <= |s| && s[0] == '&' && s[r.value - 1] == ';' && IsEntityBody(s[1..r.value - 1])
  {
    if s == "" || s[0] != '&' then None
    else
      match Find(s, ";", 1)
      case None => None
      case Some(k) => if IsEntityBody(s[1..k]) then Some(k + 1) else None
  }

  /** The tag or entity opening `s`, if one does. */
  function TokenLen(s: string): (r: Option<nat>)
    requires s != ""
    ensures r.Some? ==> 0 < r.value <= |s|
  {
    if s[0] == '<' then TagEnd(s, 1, None) else EntityLen(s)
  }

  /** `_structural_tokens`. */
  function Tokens(s: string): seq<string>
  {
    if s == "" then []
    else
      match TokenLen(s)
      case Some(n) => [s[..n]] + Tokens(s[n..])
      case None => Tokens(s[1..])
  }

  /** The text between the tokens. */
  function Visible(s: string): (r: seq<string>)
    ensures |r| == |Tokens(s)| + 1
  {
    if s == "" then [""]
    else
      match TokenLen(s)
      case Some(n) => [""] + Visible(s[n..])
      case None =>
        var rest := Visible(s[1..]);
        [[s[0]] + rest[0]] + rest[1..]
  }

  lemma WeaveCons(a: string, filling: string, segments: seq<string>, fillings: seq<string>)
    requires |segments| == |fillings| + 1
    ensures Weave([a] + segments, [filling] + fillings) == (a + filling) + Weave(segments, fillings)
  {
    assert ([a] + segments)[1..] == segments && ([filling] + fillings)[1..] == fillings;
  }

  /** Tokens and visible text together are the whole text. */
  lemma {:induction false} VisibleWeaves(s: string)
    ensures Weave(Visible(s), Tokens(s)) == s
  {
    hide TokenLen, Weave;
    if s == "" {
      assert Weave([""], []) == "" by { WeaveNone(""); }
    } else {
      match TokenLen(s) {
        case Some(n) =>
          VisibleWeaves(s[n..]);
          WeaveCons("", s[..n], Visible(s[n..]), Tokens(s[n..]));
          assert s == ("" + s[..n]) + s[n..];
        case None =>
          VisibleWeaves(s[1..]);
          WeavePrepend([s[0]], Visible(s[1..]), Tokens(s[1..]));
          assert s == [s[0]] + s[1..];
      }
    }
  }

  lemma WeaveNone(s: string)
    ensures Weave([s], []) == s
  {
  }

  lemma WeavePrepend(a: string, segments: seq<string>, fillings: seq<string>)
    requires |segments| == |fillings| + 1
    ensures Weave([a + segments[0]] + segments[1..], fillings) == a + Weave(segments, fillings)
  {
    if fillings != [] {
      Associative(a, segments[0] + fillings[0], Weave(segments[1..], fillings[1..]));
      Associative(a, segments[0], fillings[0]);
    }
  }

  // ---------------------------------------------------------------- protecting

  /** Token positions in the text, `base` characters further on. */
  function Spans(s: string, base: nat): (r: seq<(nat, nat)>)
    ensures |r| == |Tokens(s)|
    decreases s
  {
    if s == "" then []
    else
      match TokenLen(s)
      case Some(n) => [(base, base + n)] + Spans(s[n..], base + n)
      case None => Spans(s[1..], base + 1)
  }

  /** The two tests `_structural_spans` makes at one index. */
  method TokenEnd(text: string, index: nat) returns (end: Option<nat>)
    requires index < |text|
    ensures end == match TokenLen(text[index..]) case None => None case Some(n) => Some(index + n)
  {
    if text[index] == '<' {
      end := TagEndLoop(text, index);
    } else {
      var n := EntityLen(text[index..]);
      end := if n.Some? then Some(index + n.value) else None;
    }
  }

  lemma SpansStep(text: string, index: nat)
    requires index < |text|
    ensures match TokenLen(text[index..])
            case Some(n) => Spans(text[index..], index) == [(index, index + n)] + Spans(text[index + n..], index + n)
            case None => Spans(text[index..], index) == Spans(text[index + 1..], index + 1)
  {
    hide TokenLen;
    var rest := text[index..];
    match TokenLen(rest) {
      case Some(n) => assert rest[n..] == text[index + n..];
      case None => assert rest[1..] == text[index + 1..];
    }
  }

  /** `_structural_spans`. */
  method StructuralSpans(text: string) returns (spans: seq<(nat, nat)>)
    ensures spans == Spans(text, 0)
  {
    hide TokenLen, Spans;
    spans := [];
    var index: nat := 0;
    assert text[0..] == text;
    while index < |text|
      invariant index <= |text|
      invariant Spans(text, 0) == spans + Spans(text[index..], index)
    {
      var end := TokenEnd(text, index);
      SpansStep(text, index);
      if end.Some? {
        Associative(spans, [(index, end.value)], Spans(text[end.value..], end.value));
        spans := spans + [(index, end.value)];
        index := end.value;
      } else {
        index := index + 1;
      }
    }
    assert text[index..] == "";
    NoSpans(index);
  }

  lemma NoSpans(base: nat)
    ensures Spans("", base) == []
  {
  }

  /** The first token position cuts off the first visible segment and the first token. */
  ghost predicate FirstCut(s: string, base: nat, a: nat, e: nat)
    requires Tokens(s) != []
  {
    && Spans(s, base)[0] == (a, e) && base <= a < e <= base + |s|
    && Visible(s)[0] == s[..a - base] && Tokens(s)[0] == s[a - base..e - base]
    && Visible(s)[1..] == Visible(s[e - base..]) && Tokens(s)[1..] == Tokens(s[e - base..])
    && Spans(s, base)[1..] == Spans(s[e - base..], e)
  }

  lemma {:induction false} SpanCuts(s: string, base: nat)
    ensures Tokens(s) == [] ==> Visible(s) == [s]
    ensures Tokens(s) != [] ==> FirstCut(s, base, Spans(s, base)[0].0, Spans(s, base)[0].1)
    decreases s
  {
    hide TokenLen, FirstCut;
    if s != "" {
      match TokenLen(s) {
        case Some(n) =>
          CutHere(s, base, n);
        case None =>
          SpanCuts(s[1..], base + 1);
          if Tokens(s) == [] {
            assert [s[0]] + s[1..] == s;
          } else {
            CutLater(s, base, Spans(s, base)[0].0, Spans(s, base)[0].1);
          }
      }
    }
  }

  lemma CutHere(s: string, base: nat, n: nat)
    requires s != "" && TokenLen(s) == Some(n)
    ensures FirstCut(s, base, base, base + n)
  {
    hide TokenLen;
    assert Tokens(s) == [s[..n]] + Tokens(s[n..]) && Spans(s, base) == [(base, base + n)] + Spans(s[n..], base + n);
  }

  lemma {:induction false} CutLater(s: string, base: nat, a: nat, e: nat)
    requires s != "" && TokenLen(s).None? && Tokens(s[1..]) != [] && FirstCut(s[1..], base + 1, a, e)
    ensures FirstCut(s, base, a, e)
  {
    hide TokenLen;
    var rest, v := s[1..], Visible(s[1..]);
    assert Tokens(s) == Tokens(rest) && Spans(s, base) == Spans(rest, base + 1);
    assert Visible(s) == [[s[0]] + v[0]] + v[1..];
    assert Visible(s)[0] == [s[0]] + v[0] && Visible(s)[1..] == v[1..];
    assert rest[e - base - 1..] == s[e - base..];
    assert rest[a - base - 1..e - base - 1] == s[a - base..e - base];
    assert [s[0]] + rest[..a - base - 1] == s[..a - base];
  }

  /** A placeholder and the token it stands for. */
  datatype Structure = Structure(placeholder: string, raw: string)

  datatype Protected = Protected(text: string, structures: seq<Structure>, prefix: string)

  function Structures(token: string, first: nat, raws: seq<string>): (r: seq<Structure>)
    ensures |r| == |raws|
    decreases raws
  {
    if raws == [] then [] else [Structure(Placeholder(Html, token, first), raws[0])] + Structures(token, first + 1, raws[1..])
  }

  /** What `protect_telegram_html` promises. */
  ghost predicate IsProtected(html: string, token: string, p: Protected)
  {
    && p.text == Weave(Visible(html), Names(Html, token, 0, |Tokens(html)|))
    && p.structures == Structures(token, 0, Tokens(html))
    && p.prefix == Prefix(Html, token)
  }

  lemma NoStructures(token: string, first: nat)
    ensures Structures(token, first, []) == []
  {
  }

  /** One round of the protecting loop. */
  lemma ProtectStep(html: string, token: string, cursor: nat, index: nat)
    requires cursor <= |html| && Spans(html[cursor..], cursor) != []
    ensures var (start, end) := Spans(html[cursor..], cursor)[0];
            && cursor <= start < end <= |html|
            && Spans(html[cursor..], cursor)[1..] == Spans(html[end..], end)
            && Weave(Visible(html[cursor..]), Names(Html, token, index, |Tokens(html[cursor..])|))
               == (html[cursor..start] + Placeholder(Html, token, index))
                  + Weave(Visible(html[end..]), Names(Html, token, index + 1, |Tokens(html[end..])|))
            && Structures(token, index, Tokens(html[cursor..]))
               == [Structure(Placeholder(Html, token, index), html[start..end])] + Structures(token, index + 1, Tokens(html[end..]))
  {
    hide Placeholder, Visible, Tokens, Spans;
    var rest := html[cursor..];
    SpanCuts(rest, cursor);
    var (start, end) := Spans(rest, cursor)[0];
    assert rest[end - cursor..] == html[end..];
    assert rest[..start - cursor] == html[cursor..start] && rest[start - cursor..end - cursor] == html[start..end];
    var names := Names(Html, token, index, |Tokens(rest)|);
    assert names[0] == Placeholder(Html, token, index)
        && names[1..] == Names(Html, token, index + 1, |Tokens(html[end..])|);
  }

  /** `protect_telegram_html`. */
  method Protect(html: string, token: string) returns (p: Protected)
    ensures IsProtected(html, token, p)
  {
    hide Placeholder, Visible, Tokens, Spans, Structures;
    var spans := StructuralSpans(html);
    var parts, structures: seq<Structure>, cursor: nat := "", [], 0;
    assert html[0..] == html && spans[0..] == spans;
    for index := 0 to |spans|
      invariant cursor <= |html| && |structures| == index
      invariant spans[index..] == Spans(html[cursor..], cursor)
      invariant Structures(token, 0, Tokens(html)) == structures + Structures(token, index, Tokens(html[cursor..]))
      invariant Weave(Visible(html), Names(Html, token, 0, |Tokens(html)|))
                == parts + Weave(Visible(html[cursor..]), Names(Html, token, index, |Tokens(html[cursor..])|))
    {
      var (start, end) := spans[index];
      assert spans[index..][0] == spans[index] && spans[index..][1..] == spans[index + 1..];
      var placeholder := Placeholder(Html, token, index);
      ProtectStep(html, token, cursor, index);
      Associative(parts, html[cursor..start] + placeholder,
                  Weave(Visible(html[end..]), Names(Html, token, index + 1, |Tokens(html[end..])|)));
      Associative(structures, [Structure(placeholder, html[start..end])],
          Structures(token, index + 1, Tokens(html[end..])));
      parts := parts + (html[cursor..start] + placeholder);
      structures := structures + [Structure(placeholder, html[start..end])];
      cursor := end;
    }
    assert spans[|spans|..] == [];
    SpanCuts(html[cursor..], cursor);
    NoStructures(token, |spans|);
    p := Protected(parts + html[cursor..], structures, Prefix(Html, token));
  }

  // ---------------------------------------------------------------- restoring

  predicate ReservedAt(s: string, at: nat)
  {
    && at + 35 <= |s|
    && s[at..at + 12] == "__WUWA_HTML_" && AllHex(s[at + 12..at + 28]) && s[at + 28] == '_'
    && AllDigits(s[at + 29..at + 33]) && s[at + 33..at + 35] == "__"
  }

  /** The reserved placeholder pattern occurs somewhere. */
  predicate HasReserved(s: string)
  {
    exists at :: 0 <= at < |s| && ReservedAt(s, at)
  }

  /** Text that brings no markup of its own and no placeholder of ours. */
  predicate Clean(s: string) { '<' !in s && Tokens(s) == [] && !HasReserved(s) }

  ghost predicate Replaceable(structures: seq<Structure>)
  {
    forall s <- structures :: |s.placeholder| > 0
  }

  /** Replacing each placeholder in turn. */
  function ReplaceAll(structures: seq<Structure>, text: string): string
    requires Replaceable(structures)
  {
    if structures == [] then text
    else ReplaceAll(structures[1..], Replace(text, structures[0].placeholder, structures[0].raw))
  }

  /** The same placeholders, to be deleted. */
  function Blank(structures: seq<Structure>): (r: seq<Structure>)
    ensures |r| == |structures| && forall k :: 0 <= k < |r| ==> r[k] == Structure(structures[k].placeholder, "")
  {
    seq(|structures|, k requires 0 <= k < |structures| => Structure(structures[k].placeholder, ""))
  }

  function Raws(structures: seq<Structure>): (r: seq<string>)
    ensures |r| == |structures| && forall k :: 0 <= k < |r| ==> r[k] == structures[k].raw
  {
    seq(|structures|, k requires 0 <= k < |structures| => structures[k].raw)
  }

  ghost predicate EachOnce(structures: seq<Structure>, text: string)
    requires Replaceable(structures)
  {
    forall s <- structures :: Count(text, s.placeholder) == 1
  }

  function Position(s: Structure, text: string): nat
    requires |s.placeholder| > 0 && Count(text, s.placeholder) == 1
  {
    Find(text, s.placeholder, 0).value
  }

  ghost predicate InTextOrder(structures: seq<Structure>, text: string)
    requires Replaceable(structures) && EachOnce(structures, text)
  {
    forall i, j :: 0 <= i < j < |structures| ==> Position(structures[i], text) <= Position(structures[j], text)
  }

  /** `restore`; `None` where it raises.  `valid` stands for `validate_telegram_html`. */
  ghost function Restored(p: Protected, text: string, valid: string -> bool): Option<string>
    requires Replaceable(p.structures)
  {
    if !EachOnce(p.structures, text) || !InTextOrder(p.structures, text) then None
    else
      var without, restored := ReplaceAll(Blank(p.structures), text), ReplaceAll(p.structures, text);
      if Find(without, p.prefix, 0).Some? || HasReserved(without) || '<' in without || Tokens(without) != [] then None
      else if Tokens(restored) != Raws(p.structures) || !valid(restored) then None
      else Some(restored)
  }

  /** The first loop of `restore`: count and find each placeholder, and delete it from a copy. */
  method DeletePlaceholders(structures: seq<Structure>, translated: string) returns (r: Option<string>)
    requires Replaceable(structures)
    ensures r == if EachOnce(structures, translated) && InTextOrder(structures, translated)
                 then Some(ReplaceAll(Blank(structures), translated)) else None
  {
    hide Count, Replace, Find;
    var positions: seq<nat>, without := [], translated;
    ghost var blank := Blank(structures);
    assert blank[0..] == blank;
    for n := 0 to |structures|
      invariant |positions| == n
      invariant forall k :: 0 <= k < n ==> Count(translated, structures[k].placeholder) == 1
                                           && positions[k] == Position(structures[k], translated)
      invariant ReplaceAll(blank, translated) == ReplaceAll(blank[n..], without)
    {
      var s := structures[n];
      if Count(translated, s.placeholder) != 1 { return None; }
      positions := positions + [Position(s, translated)];
      assert blank[n..][1..] == blank[n + 1..];
      without := Replace(without, s.placeholder, "");
    }
    if exists i, j :: 0 <= i < j < |positions| && positions[i] > positions[j] { return None; }
    r := Some(without);
  }

  /** The last loop of `restore`. */
  method PutBack(structures: seq<Structure>, translated: string) returns (restored: string)
    requires Replaceable(structures)
    ensures restored == ReplaceAll(structures, translated)
  {
    hide Replace;
    restored := translated;
    assert structures[0..] == structures;
    for n := 0 to |structures|
      invariant ReplaceAll(structures, translated) == ReplaceAll(structures[n..], restored)
    {
      assert structures[n..][1..] == structures[n + 1..];
      restored := Replace(restored, structures[n].placeholder, structures[n].raw);
    }
  }

  /** `restore`. */
  method Restore(p: Protected, translated: string, valid: string -> bool) returns (r: Option<string>)
    requires Replaceable(p.structures)
    ensures r == Restored(p, translated, valid)
  {
    hide EachOnce, InTextOrder, ReplaceAll, Blank, Find, Tokens, HasReserved;
    var without := DeletePlaceholders(p.structures, translated);
    if without.None? { return None; }
    var left := without.value;
    if Find(left, p.prefix, 0).Some? || HasReserved(left) || '<' in left || Tokens(left) != [] { return None; }
    var restored := PutBack(p.structures, translated);
    if Tokens(restored) != Raws(p.structures) || !valid(restored) { return None; }
    r := Some(restored);
  }

  // ---------------------------------------------------------------- tokens do not depend on what surrounds them

  /** A string that is exactly one tag or entity. */
  predicate IsRaw(s: string) { s != "" && TokenLen(s) == Some(|s|) }

  lemma {:induction false} TagEndLocal(s: string, rest: string, index: nat, quote: Option<char>)
    requires TagEnd(s, index, quote).Some?
    ensures TagEnd(s + rest, index, quote) == TagEnd(s, index, quote)
    ensures TagEnd(s[..TagEnd(s, index, quote).value], index, quote) == TagEnd(s, index, quote)
    decreases |s| - index
  {
    var n := TagEnd(s, index, quote).value;
    assert (s + rest)[index] == s[index] == s[..n][index];
    if quote.Some? {
      TagEndLocal(s, rest, index + 1, if s[index] == quote.value then None else quote);
    } else if s[index] == '"' || s[index] == '\'' {
      TagEndLocal(s, rest, index + 1, Some(s[index]));
    } else if s[index] != '>' {
      TagEndLocal(s, rest, index + 1, None);
    }
  }

  lemma EntityLocal(s: string, rest: string)
    requires EntityLen(s).Some?
    ensures EntityLen(s + rest) == EntityLen(s)
    ensures EntityLen(s[..EntityLen(s).value]) == EntityLen(s)
  {
    var n := EntityLen(s).value;
    SemicolonAt(s, n - 1);
    assert (s + rest)[1..n - 1] == s[1..n - 1] == s[..n][1..n - 1];
    SemicolonAt(s + rest, n - 1);
    SemicolonAt(s[..n], n - 1);
  }

  /** An entity's semicolon is the first one. */
  lemma SemicolonAt(s: string, k: nat)
    requires 2 < k < |s| && s[k] == ';' && IsEntityBody(s[1..k])
    ensures Find(s, ";", 1) == Some(k)
  {
    assert ';' !in s[1..k];
    hide IsEntityBody;
    forall i | 1 <= i < k ensures s[i] != ';' { assert s[1..k][i - 1] == s[i]; }
    assert s[k..k + 1] == ";";
    assert OccursAt(s, ";", k);
    var found := Find(s, ";", 1).value;
    assert s[found..found + 1] == ";" && s[found] == ';';
  }

  lemma TokenLocal(s: string, rest: string)
    requires s != "" && TokenLen(s).Some?
    ensures TokenLen(s + rest) == TokenLen(s)
    ensures IsRaw(s[..TokenLen(s).value])
  {
    if s[0] == '<' {
      TagEndLocal(s, rest, 1, None);
    } else {
      EntityLocal(s, rest);
    }
  }

  lemma {:induction false} TokensAreRaw(s: string)
    ensures forall t <- Tokens(s) :: IsRaw(t)
  {
    hide TokenLen;
    if s != "" {
      match TokenLen(s) {
        case Some(n) =>
          TokenLocal(s, "");
          TokensAreRaw(s[n..]);
        case None => TokensAreRaw(s[1..]);
      }
    }
  }

  // ---------------------------------------------------------------- tokens by their characters

  /** Whatever follows, an entity at the front is the first token. */
  lemma EntityIsToken(body: string, rest: string)
    requires
      || (&& |body| >= 2 && ('A' <= body[0] <= 'Z' || 'a' <= body[0] <= 'z')
          && forall i :: 1 <= i < |body| ==> 'A' <= body[i] <= 'Z' || 'a' <= body[i] <= 'z' || '0' <= body[i] <= '9')
      || (|body| >= 2 && body[0] == '#' && forall i :: 1 <= i < |body| ==> '0' <= body[i] <= '9')
      || (&& |body| >= 3 && body[0] == '#' && (body[1] == 'x' || body[1] == 'X')
          && forall i :: 2 <= i < |body| ==> '0' <= body[i] <= '9' || 'A' <= body[i] <= 'F' || 'a' <= body[i] <= 'f')
    ensures Tokens("&" + body + ";" + rest) == ["&" + body + ";"] + Tokens(rest)
    ensures Visible("&" + body + ";" + rest) == [""] + Visible(rest)
    ensures IsRaw("&" + body + ";")
  {
    var raw := "&" + body + ";";
    assert raw[1..|body| + 1] == body && IsEntityBody(body);
    SemicolonAt(raw, |body| + 1);
    FirstToken(raw, rest);
  }

  lemma FirstToken(raw: string, rest: string)
    requires IsRaw(raw)
    ensures Tokens(raw + rest) == [raw] + Tokens(rest) && Visible(raw + rest) == [""] + Visible(rest)
  {
    hide TokenLen;
    TokenLocal(raw, rest);
    assert (raw + rest)[..|raw|] == raw && (raw + rest)[|raw|..] == rest;
  }

  /** The inside of a tag: characters other than quotes and `>`, and quoted stretches without their own quote. */
  ghost predicate TagText(b: string)
    decreases |b|
  {
    || b == ""
    || (b[0] != '"' && b[0] != '\'' && b[0] != '>' && TagText(b[1..]))
    || exists n :: 0 < n < |b| && QuotedTo(b, n) && TagText(b[n + 1..])
  }

  predicate QuotedTo(b: string, n: nat)
    requires 0 < n < |b|
  {
    (b[0] == '"' || b[0] == '\'') && b[n] == b[0] && b[0] !in b[1..n]
  }

  /** Whatever follows, a tag at the front is the first token. */
  lemma TagIsToken(body: string, rest: string)
    requires TagText(body)
    ensures Tokens("<" + body + ">" + rest) == ["<" + body + ">"] + Tokens(rest)
    ensures Visible("<" + body + ">" + rest) == [""] + Visible(rest)
    ensures IsRaw("<" + body + ">")
  {
    hide TagText, Tokens, Visible;
    var raw := "<" + body + ">";
    assert raw[1..] == body + ">";
    TagTextEnds(raw, 1, body);
    FirstToken(raw, rest);
  }

  lemma {:induction false} TagTextEnds(s: string, index: nat, body: string)
    requires index <= |s| && s[index..] == body + ">" && TagText(body)
    ensures TagEnd(s, index, None) == Some(|s|)
    decreases |body|
  {
    assert s[index..][0] == s[index];
    if body != "" {
      if body[0] != '"' && body[0] != '\'' {
        assert s[index + 1..] == body[1..] + ">";
        TagTextEnds(s, index + 1, body[1..]);
      } else {
        var n :| 0 < n < |body| && QuotedTo(body, n) && TagText(body[n + 1..]);
        forall i | index < i < index + n ensures s[i] != body[0] {
          assert s[i] == s[index..][i - index] == body[1..n][i - index - 1];
        }
        assert s[index + n] == s[index..][n];
        hide TagText;
        QuoteEnds(s, index + 1, body[0], index + n);
        assert s[index + n + 1..] == body[n + 1..] + ">";
        TagTextEnds(s, index + n + 1, body[n + 1..]);
      }
    }
  }

  /** A quoted stretch is skipped up to its quote. */
  lemma {:induction false} QuoteEnds(s: string, index: nat, quote: char, n: nat)
    requires index <= n < |s| && s[n] == quote && forall i :: index <= i < n ==> s[i] != quote
    ensures TagEnd(s, index, Some(quote)) == TagEnd(s, n + 1, None)
    decreases n - index
  {
    if index < n { QuoteEnds(s, index + 1, quote, n); }
  }

  lemma {:induction false} QuoteCloses(s: string, index: nat, quote: char) returns (n: nat)
    requires TagEnd(s, index, Some(quote)).Some?
    ensures index <= n < |s| && s[n] == quote && (forall i :: index <= i < n ==> s[i] != quote)
    ensures TagEnd(s, index, Some(quote)) == TagEnd(s, n + 1, None)
    decreases |s| - index
  {
    n := index;
    if s[index] != quote { n := QuoteCloses(s, index + 1, quote); }
  }

  lemma {:induction false} TagEndsText(s: string, index: nat)
    requires TagEnd(s, index, None).Some?
    ensures var end := TagEnd(s, index, None).value; s[end - 1] == '>' && TagText(s[index..end - 1])
    decreases |s| - index
  {
    var end := TagEnd(s, index, None).value;
    var body := s[index..end - 1];
    if s[index] == '"' || s[index] == '\'' {
      var n := QuoteCloses(s, index + 1, s[index]);
      TagEndsText(s, n + 1);
      assert body[n - index + 1..] == s[n + 1..end - 1];
      assert body[0] == s[index] && body[n - index] == s[n];
      SliceOfSlice(s, index, end - 1, 1, n - index);
      assert QuotedTo(body, n - index);
    } else if s[index] != '>' {
      TagEndsText(s, index + 1);
      assert body[1..] == s[index + 1..end - 1];
    }
  }

  lemma SliceOfSlice(s: string, from: nat, to: nat, start: nat, end: nat)
    requires from <= to <= |s| && start <= end <= to - from
    ensures s[from..to][start..end] == s[from + start..from + end]
  {
    var slice := s[from..to];
    assert forall i :: start <= i < end ==> slice[i] == s[from + i];
  }

  /** Nothing else is a token: each is an entity or a tag of these characters. */
  lemma RawIs(raw: string) returns (body: string)
    requires IsRaw(raw)
    ensures
      || (raw == "<" + body + ">" && TagText(body))
      || (&& raw == "&" + body + ";" && |body| >= 2
          && (|| (&& ('A' <= body[0] <= 'Z' || 'a' <= body[0] <= 'z')
                  && forall i :: 1 <= i < |body| ==> 'A' <= body[i] <= 'Z' || 'a' <= body[i] <= 'z' || '0' <= body[i] <= '9')
              || (body[0] == '#' && forall i :: 1 <= i < |body| ==> '0' <= body[i] <= '9')
              || (&& |body| >= 3 && body[0] == '#' && (body[1] == 'x' || body[1] == 'X')
                  && forall i :: 2 <= i < |body| ==> '0' <= body[i] <= '9' || 'A' <= body[i] <= 'F' || 'a' <= body[i] <= 'f')))
  {
    body := raw[1..|raw| - 1];
    if raw[0] == '<' {
      TagEndsText(raw, 1);
      assert raw == "<" + body + ">";
    } else {
      assert raw == "&" + body + ";";
    }
  }

  /** No visible segment contains an entity or a tag. */
  lemma {:induction false} NoTokenVisible(s: string, k: nat, before: string, raw: string, after: string)
    requires k < |Visible(s)| && IsRaw(raw)
    ensures Visible(s)[k] != before + raw + after
    decreases |s|, |before|
  {
    hide TokenLen, IsRaw;
    RawNonempty(raw);
    assert |before + raw + after| > 0;
    if s != "" {
      match TokenLen(s) {
        case Some(n) =>
          if k > 0 { NoTokenVisible(s[n..], k - 1, before, raw, after); }
        case None =>
          if k > 0 {
            NoTokenVisible(s[1..], k, before, raw, after);
          } else if before != "" {
            NoTokenVisible(s[1..], 0, before[1..], raw, after);
            assert Visible(s)[0][1..] == Visible(s[1..])[0] && (before + raw + after)[1..] == before[1..] + raw + after;
          } else {
            NoTokenFirst(s, raw, after);
            assert "" + raw + after == raw + after;
          }
      }
    }
  }

  lemma NoTokenFirst(s: string, raw: string, after: string)
    requires s != "" && TokenLen(s).None? && IsRaw(raw)
    ensures Visible(s)[0] != raw + after
  {
    hide TokenLen, IsRaw, Visible;
    FirstSegmentStarts(s);
    var first := Visible(s)[0];
    var rest := s[|first|..];
    assert s == first + rest;
    RawStarts(raw, after + rest);
    Associative(raw, after, rest);
  }

  lemma RawNonempty(raw: string)
    requires IsRaw(raw)
    ensures raw != ""
  {
  }

  lemma RawStarts(raw: string, rest: string)
    requires IsRaw(raw)
    ensures raw + rest != "" && TokenLen(raw + rest).Some?
  {
    hide TokenLen;
    TokenLocal(raw, rest);
  }

  lemma FirstSegmentStarts(s: string)
    ensures Visible(s)[0] <= s
  {
    hide Visible, Tokens;
    VisibleWeaves(s);
    var segments, tokens := Visible(s), Tokens(s);
    if tokens != [] {
      Associative(segments[0], tokens[0], Weave(segments[1..], tokens[1..]));
    }
  }

  /** The reserved pattern occurs exactly where such characters do. */
  lemma ReservedIs(s: string)
    ensures HasReserved(s) <==>
              exists before: string, hex: string, number: string, after: string ::
                IsReserved(s, before, hex, number, after)
  {
    if HasReserved(s) {
      var at :| 0 <= at < |s| && ReservedAt(s, at);
      assert s == s[..at] + s[at..at + 12] + s[at + 12..at + 28] + [s[at + 28]] + s[at + 29..at + 33] + s[at + 33..at + 35] + s[at + 35..];
      assert IsReserved(s, s[..at], s[at + 12..at + 28], s[at + 29..at + 33], s[at + 35..]);
    }
    forall before, hex, number, after | IsReserved(s, before, hex, number, after) ensures HasReserved(s) {
      ReservedThere(s, before, hex, number, after);
    }
  }

  /** So any placeholder of this kind, under any token, is seen. */
  lemma PlaceholderReserved(before: string, token: string, number: nat, after: string)
    requires IsToken(token) && number < 10000
    ensures HasReserved(before + Placeholder(Html, token, number) + after)
  {
    hide HasReserved, Padded;
    PaddedToFour(number);
    var mark, digits := "__WUWA_HTML_", Padded(number);
    assert Placeholder(Html, token, number) == mark + token + "_" + digits + "__";
    hide Placeholder;
    assert before + (mark + token + "_" + digits + "__") + after == before + mark + token + "_" + digits + "__" + after;
    ReservedThere(before + Placeholder(Html, token, number) + after, before, token, digits, after);
  }

  lemma PaddedToFour(number: nat)
    requires number < 10000
    ensures |Padded(number)| == 4
  {
    assert |Decimal(number / 1000)| == 1 && number / 100 / 10 == number / 1000 && number / 10 / 10 == number / 100;
    assert |Decimal(number / 100)| <= 2 && |Decimal(number / 10)| <= 3 && |Decimal(number)| <= 4;
  }

  lemma ReservedThere(s: string, before: string, hex: string, number: string, after: string)
    requires IsReserved(s, before, hex, number, after)
    ensures HasReserved(s)
  {
    var mark := "__WUWA_HTML_";
    assert s == before + mark + (hex + "_" + number + "__" + after);
    assert s == (before + mark) + hex + ("_" + number + "__" + after);
    assert s == (before + mark + hex) + "_" + (number + "__" + after);
    assert s == (before + mark + hex + "_") + number + ("__" + after);
    assert s == (before + mark + hex + "_" + number) + "__" + after;
    Slice(before, mark, hex + "_" + number + "__" + after);
    Slice(before + mark, hex, "_" + number + "__" + after);
    Slice(before + mark + hex + "_", number, "__" + after);
    Slice(before + mark + hex + "_" + number, "__", after);
    assert ReservedAt(s, |before|);
  }

  lemma Slice(a: string, b: string, c: string)
    ensures (a + b + c)[|a|..|a| + |b|] == b
  {
  }

  predicate IsReserved(s: string, before: string, hex: string, number: string, after: string)
  {
    && s == before + "__WUWA_HTML_" + hex + "_" + number + "__" + after
    && |hex| == 16 && (forall i :: 0 <= i < 16 ==> '0' <= hex[i] <= '9' || 'a' <= hex[i] <= 'f')
    && |number| == 4 && (forall i :: 0 <= i < 4 ==> '0' <= number[i] <= '9')
  }

  /** The same pieces with nothing to put into the holes. */
  function Blanked(pieces: seq<Piece>): (r: seq<Piece>)
    ensures |r| == |pieces|
    ensures forall k :: 0 <= k < |r| ==> r[k] == if pieces[k].Hole? then pieces[k].(official := "") else pieces[k]
  {
    if pieces == [] then []
    else [if pieces[0].Hole? then pieces[0].(official := "") else pieces[0]] + Blanked(pieces[1..])
  }

  /** The text without its placeholders. */
  function Bare(pieces: seq<Piece>): string { Settle(Blanked(pieces)) }

  /** What the holes are meant for, from left to right. */
  function Fillings(pieces: seq<Piece>): seq<string>
  {
    if pieces == [] then [] else (if pieces[0].Hole? then [pieces[0].official] else []) + Fillings(pieces[1..])
  }

  /** No entity reaches into a tag or another entity. */
  lemma EntityStops(head: string, raw: string, tail: string)
    requires head != "" && IsRaw(raw) && EntityLen(head + raw + tail).Some?
    ensures EntityLen(head + raw + tail).value <= |head|
  {
    hide TagEnd;
    var text := head + raw + tail;
    var n := EntityLen(text).value;
    assert raw[0] == '<' || raw[0] == '&';
    assert text[|head|] == raw[0];
    var body := text[1..n - 1];
    forall i | 1 <= i < n - 1 ensures text[i] != '<' && text[i] != '&'
    {
      assert body[i - 1] == text[i] && IsEntityBody(body);
    }
  }

  lemma NoEntityAcross(head: string, raw: string, tail: string, other: string)
    requires head != "" && head[0] != '<' && IsRaw(raw) && TokenLen(head + raw + tail).Some?
    ensures TokenLen(head + other).Some?
  {
    hide TagEnd, IsEntityBody;
    var text := head + raw + tail;
    EntityStops(head, raw, tail);
    var n := EntityLen(text).value;
    TokenLocal(text, "");
    assert text[..n] == head[..n];
    TokenLocal(head[..n], head[n..] + other);
    Associative(head[..n], head[n..], other);
    assert head[..n] + head[n..] == head;
  }

  /** Tokens put back between stretches of clean text are the only tokens of the result. */
  lemma {:induction false} TokensOfPieces(head: string, pieces: seq<Piece>)
    requires forall p <- pieces :: p.Hole? ==> IsRaw(p.official)
    requires '<' !in head + Bare(pieces) && Tokens(head + Bare(pieces)) == []
    ensures Tokens(head + Settle(pieces)) == Fillings(pieces)
    decreases |pieces|, |head|
  {
    hide TokenLen;
    if pieces == [] {
      assert Bare(pieces) == "" && Settle(pieces) == "";
    } else if pieces[0].Plain? {
      var rest := pieces[1..];
      Associative(head, pieces[0].text, Settle(rest));
      Associative(head, pieces[0].text, Bare(rest));
      assert Blanked(pieces)[1..] == Blanked(rest);
      TokensOfPieces(head + pieces[0].text, rest);
    } else if head == "" {
      var rest, raw := pieces[1..], pieces[0].official;
      assert Blanked(pieces)[1..] == Blanked(rest);
      assert "" + Settle(pieces) == raw + Settle(rest) && "" + Bare(pieces) == "" + Bare(rest)
          && "" + Settle(rest) == Settle(rest);
      assert raw in Fillings(pieces) && IsRaw(raw);
      TokenLocal(raw, Settle(rest));
      assert (raw + Settle(rest))[..|raw|] == raw && (raw + Settle(rest))[|raw|..] == Settle(rest);
      TokensOfPieces("", rest);
    } else {
      PeelHead(head, pieces);
      TokensOfPieces(head[1..], pieces);
    }
  }

  lemma PeelHead(head: string, pieces: seq<Piece>)
    requires head != "" && pieces != [] && pieces[0].Hole? && IsRaw(pieces[0].official)
    requires '<' !in head + Bare(pieces) && Tokens(head + Bare(pieces)) == []
    ensures Tokens(head + Settle(pieces)) == Tokens(head[1..] + Settle(pieces))
    ensures '<' !in head[1..] + Bare(pieces) && Tokens(head[1..] + Bare(pieces)) == []
  {
    hide TokenLen, Tokens, Bare, IsRaw;
    PeelBefore(head, pieces[0].official, Settle(pieces[1..]), Bare(pieces));
  }

  lemma PeelBefore(head: string, raw: string, tail: string, bare: string)
    requires head != "" && IsRaw(raw)
    requires '<' !in head + bare && Tokens(head + bare) == []
    ensures Tokens(head + (raw + tail)) == Tokens(head[1..] + (raw + tail))
    ensures '<' !in head[1..] + bare && Tokens(head[1..] + bare) == []
  {
    hide TokenLen, Tokens, IsRaw;
    var text, other := head + (raw + tail), head + bare;
    assert text[1..] == head[1..] + (raw + tail) && other[1..] == head[1..] + bare;
    assert other[0] == head[0] == text[0] && other[0] in other;
    TokensPeel(other);
    if TokenLen(text).Some? {
      Associative(head, raw, tail);
      NoEntityAcross(head, raw, tail, bare);
      assert false;
    }
    TokensPeel(text);
    forall c <- other[1..] ensures c in other {}
  }

  lemma TokensPeel(s: string)
    requires s != ""
    ensures Tokens(s) == [] ==> TokenLen(s).None?
    ensures TokenLen(s).None? ==> Tokens(s) == Tokens(s[1..])
  {
    hide TokenLen;
  }

  // ---------------------------------------------------------------- replacing every placeholder

  function HtmlKeys(token: string, count: nat): (r: seq<Key>)
    ensures |r| == count && forall k :: 0 <= k < count ==> r[k] == Key(Html, token, k)
  {
    seq(count, k requires 0 <= k => Key(Html, token, k))
  }

  /** The structures carry these keys, and every hole is one of theirs, meant for its raw token. */
  ghost predicate Matches(structures: seq<Structure>, keys: seq<Key>, pieces: seq<Piece>)
  {
    && |structures| == |keys|
    && (forall k :: 0 <= k < |keys| ==> IsToken(keys[k].token) && structures[k].placeholder == keys[k].Name())
    && (forall i, j :: 0 <= i < j < |keys| ==> keys[i] != keys[j])
    && (forall p <- pieces :: p.Hole? ==> HoleOf(p, structures, keys))
  }

  ghost predicate HoleOf(p: Piece, structures: seq<Structure>, keys: seq<Key>)
    requires |structures| == |keys| && p.Hole?
  {
    exists k :: 0 <= k < |keys| && p.key == keys[k] && p.official == structures[k].raw
  }

  lemma MatchesReplaceable(structures: seq<Structure>, keys: seq<Key>, pieces: seq<Piece>)
    requires Matches(structures, keys, pieces)
    ensures Replaceable(structures) && TokensOk(pieces)
  {
    hide Placeholder;
    forall s <- structures ensures |s.placeholder| > 0
    {
      var k :| 0 <= k < |structures| && structures[k] == s;
      PlaceholderShape(keys[k].kind, keys[k].token, keys[k].number);
    }
    forall p <- pieces | p.Hole? ensures IsToken(p.key.token) { assert HoleOf(p, structures, keys); }
  }

  lemma {:induction false} ReplaceAllSettles(structures: seq<Structure>, keys: seq<Key>, pieces: seq<Piece>)
    requires Matches(structures, keys, pieces) && Replaceable(structures)
    requires forall key <- keys :: Times(pieces, key) == 1 && !Contains(Settle(pieces), key.token)
    ensures ReplaceAll(structures, Render(pieces)) == Settle(pieces)
  {
    hide Placeholder, Render, Settle;
    MatchesReplaceable(structures, keys, pieces);
    if structures == [] {
      assert forall p <- pieces :: p.Hole? ==> HoleOf(p, structures, keys);
      NoHoles(pieces);
    } else {
      var key, raw := keys[0], structures[0].raw;
      assert key in keys;
      forall p <- pieces | IsHole(p, key) ensures p.official == raw { assert HoleOf(p, structures, keys); }
      ReplaceFills(pieces, key, raw);
      FillKeeps(pieces, key, raw);
      var filled := Fill(pieces, key, raw);
      forall p <- filled | p.Hole? ensures HoleOf(p, structures[1..], keys[1..])
      {
        var i :| 0 <= i < |filled| && filled[i] == p;
        assert p == pieces[i] && pieces[i] in pieces && HoleOf(p, structures, keys);
        var k :| 0 <= k < |keys| && p.key == keys[k] && p.official == structures[k].raw;
        assert keys[1..][k - 1] == keys[k] && structures[1..][k - 1] == structures[k];
      }
      forall k <- keys[1..] ensures Times(filled, k) == 1 && !Contains(Settle(filled), k.token)
      {
        assert k in keys && k != key;
      }
      ReplaceAllSettles(structures[1..], keys[1..], filled);
    }
  }

  lemma {:induction false} BlankedSame(pieces: seq<Piece>)
    ensures Render(Blanked(pieces)) == Render(pieces)
    ensures forall key :: Times(Blanked(pieces), key) == Times(pieces, key)
  {
    hide Placeholder;
    if pieces != [] {
      BlankedSame(pieces[1..]);
      assert Blanked(pieces)[1..] == Blanked(pieces[1..]);
    }
  }

  lemma BlankMatches(structures: seq<Structure>, keys: seq<Key>, pieces: seq<Piece>)
    requires Matches(structures, keys, pieces)
    ensures Matches(Blank(structures), keys, Blanked(pieces))
  {
    hide Placeholder;
    var blank, bare := Blank(structures), Blanked(pieces);
    forall p <- bare | p.Hole? ensures HoleOf(p, blank, keys)
    {
      var i :| 0 <= i < |bare| && bare[i] == p;
      assert pieces[i] in pieces && HoleOf(pieces[i], structures, keys);
    }
  }

  // ---------------------------------------------------------------- the order of the placeholders

  /** Placeholder numbers from left to right. */
  function Numbers(pieces: seq<Piece>): (r: seq<nat>)
    ensures forall p <- pieces :: p.Hole? ==> p.key.number in r
  {
    if pieces == [] then []
    else
      assert forall p <- pieces :: p == pieces[0] || p in pieces[1..];
      (if pieces[0].Hole? then [pieces[0].key.number] else []) + Numbers(pieces[1..])
  }

  function Upto(first: nat, count: nat): (r: seq<nat>)
    ensures |r| == count && forall k :: 0 <= k < count ==> r[k] == first + k
    decreases count
  {
    if count == 0 then [] else [first] + Upto(first + 1, count - 1)
  }

  ghost predicate Increasing(pieces: seq<Piece>)
  {
    forall i, j :: 0 <= i < j < |pieces| && pieces[i].Hole? && pieces[j].Hole? ==> pieces[i].key.number < pieces[j].key.number
  }

  ghost predicate HolesWithin(pieces: seq<Piece>, token: string, first: nat, count: nat)
  {
    forall p <- pieces :: p.Hole? ==> p.key == Key(Html, token, p.key.number) && first <= p.key.number < first + count
  }

  ghost predicate AllOnce(pieces: seq<Piece>, token: string, first: nat, count: nat)
  {
    forall k: nat :: first <= k < first + count ==> Times(pieces, Key(Html, token, k)) == 1
  }

  /** Each number once and increasing from left to right: that is the original order. */
  lemma {:induction false} OrderIff(pieces: seq<Piece>, token: string, first: nat, count: nat)
    requires HolesWithin(pieces, token, first, count)
    ensures Numbers(pieces) == Upto(first, count) <==> Increasing(pieces) && AllOnce(pieces, token, first, count)
    decreases pieces
  {
    hide Placeholder, Increasing, Numbers, Upto, Times;
    if pieces == [] {
      NoPieces(token, first, count);
    } else if pieces[0].Plain? {
      OrderIff(pieces[1..], token, first, count);
      PlainFirst(pieces);
    } else {
      assert pieces[0] in pieces;
      if pieces[0].key.number != first {
        NotFirst(pieces, token, first, count);
      } else if HolesWithin(pieces[1..], token, first + 1, count - 1) {
        OrderIff(pieces[1..], token, first + 1, count - 1);
        FirstHole(pieces, token, first, count);
      } else {
        StrayHole(pieces, token, first, count);
      }
    }
  }

  lemma NoPieces(token: string, first: nat, count: nat)
    ensures Numbers([]) == Upto(first, count) <==> Increasing([]) && AllOnce([], token, first, count)
  {
    hide Placeholder;
    if count > 0 { assert Times([], Key(Html, token, first)) == 0; }
  }

  lemma PlainFirst(pieces: seq<Piece>)
    requires pieces != [] && pieces[0].Plain?
    ensures Numbers(pieces) == Numbers(pieces[1..]) && (Increasing(pieces) <==> Increasing(pieces[1..]))
    ensures forall key :: Times(pieces, key) == Times(pieces[1..], key)
  {
    hide Placeholder;
    IncreasingStep(pieces);
  }

  /** The first hole is number `first` and all later ones are above it. */
  lemma FirstHole(pieces: seq<Piece>, token: string, first: nat, count: nat)
    requires HolesWithin(pieces, token, first, count) && pieces != [] && pieces[0].Hole?
        && pieces[0].key.number == first
    requires HolesWithin(pieces[1..], token, first + 1, count - 1)
    ensures Numbers(pieces) == Upto(first, count) <==> Numbers(pieces[1..]) == Upto(first + 1, count - 1)
    ensures Increasing(pieces) <==> Increasing(pieces[1..])
    ensures AllOnce(pieces, token, first, count) <==> AllOnce(pieces[1..], token, first + 1, count - 1)
  {
    hide Placeholder, Increasing, Upto, Numbers, Times;
    var rest, key := pieces[1..], Key(Html, token, first);
    assert pieces[0] in pieces && pieces[0].key == key;
    IncreasingStep(pieces);
    HoleFirst(pieces);
    UptoStep(first, count);
    assert Numbers(pieces)[1..] == Numbers(rest) && Upto(first, count)[1..] == Upto(first + 1, count - 1);
    forall i | 0 <= i < |rest| ensures !IsHole(rest[i], key) { assert rest[i] in rest; }
    TimesZero(rest, key);
    assert forall k: nat :: k != first ==> Times(pieces, Key(Html, token, k)) == Times(rest, Key(Html, token, k));
  }

  lemma HoleFirst(pieces: seq<Piece>)
    requires pieces != [] && pieces[0].Hole?
    ensures Numbers(pieces) == [pieces[0].key.number] + Numbers(pieces[1..])
    ensures forall key :: Times(pieces, key) == (if key == pieces[0].key then 1 else 0) + Times(pieces[1..], key)
  {
    hide Placeholder;
  }

  lemma UptoStep(first: nat, count: nat)
    requires count > 0
    ensures Upto(first, count) == [first] + Upto(first + 1, count - 1)
  {
  }

  lemma NotFirst(pieces: seq<Piece>, token: string, first: nat, count: nat)
    requires HolesWithin(pieces, token, first, count) && pieces != [] && pieces[0].Hole?
        && pieces[0].key.number != first
    ensures Numbers(pieces) != Upto(first, count) && !(Increasing(pieces) && AllOnce(pieces, token, first, count))
  {
    hide Placeholder;
    assert pieces[0] in pieces && Numbers(pieces)[0] == pieces[0].key.number;
    if AllOnce(pieces, token, first, count) {
      var j := TimesAt(pieces, Key(Html, token, first));
      assert IsHole(pieces[j], Key(Html, token, first)) && j > 0;
    }
  }

  lemma IncreasingStep(pieces: seq<Piece>)
    requires pieces != []
    ensures Increasing(pieces) <==>
            (Increasing(pieces[1..])
             && (pieces[0].Hole? ==> forall p <- pieces[1..] :: p.Hole? ==> pieces[0].key.number < p.key.number))
  {
    var rest := pieces[1..];
    if Increasing(pieces) {
      forall i, j | 0 <= i < j < |rest| && rest[i].Hole? && rest[j].Hole? ensures rest[i].key.number < rest[j].key.number
      {
        assert pieces[i + 1] == rest[i] && pieces[j + 1] == rest[j];
      }
      forall p <- rest | p.Hole? && pieces[0].Hole? ensures pieces[0].key.number < p.key.number
      {
        var i :| 0 <= i < |rest| && rest[i] == p;
        assert pieces[i + 1] == p;
      }
    }
  }

  /** A hole after the first that is not numbered above it fits neither description. */
  lemma StrayHole(pieces: seq<Piece>, token: string, first: nat, count: nat)
    requires HolesWithin(pieces, token, first, count) && pieces != [] && pieces[0].Hole?
        && pieces[0].key.number == first
    requires !HolesWithin(pieces[1..], token, first + 1, count - 1)
    ensures Numbers(pieces) != Upto(first, count) && !Increasing(pieces)
  {
    hide Placeholder, Increasing;
    var rest := pieces[1..];
    var p :| p in rest && p.Hole?
        && !(p.key == Key(Html, token, p.key.number) && first + 1 <= p.key.number < first + count);
    assert p in pieces && p.key.number == first;
    IncreasingStep(pieces);
    var k :| 0 <= k < |Numbers(rest)| && Numbers(rest)[k] == first;
    assert Numbers(pieces) == [first] + Numbers(rest);
    assert Numbers(pieces)[k + 1] == first;
  }

  // ---------------------------------------------------------------- when restoring succeeds

  /**
   A translated text, cut into text and known placeholders wherever they ended up.  The premise is
   that the random token occurs neither in the text without placeholders nor in the restored one.
   */
  ghost predicate Translation(p: Protected, token: string, raws: seq<string>, pieces: seq<Piece>)
  {
    && IsToken(token) && p.prefix == Prefix(Html, token) && p.structures == Structures(token, 0, raws)
    && (forall r <- raws :: IsRaw(r))
    && HolesWithin(pieces, token, 0, |raws|)
    && (forall q <- pieces :: q.Hole? ==> q.official == raws[q.key.number])
    && !Contains(Settle(pieces), token) && !Contains(Bare(pieces), token)
  }

  lemma {:induction false} StructuresAt(token: string, first: nat, raws: seq<string>)
    ensures forall k :: 0 <= k < |raws| ==> Structures(token, first, raws)[k] == Structure(Key(Html, token, first + k).Name(), raws[k])
    decreases raws
  {
    hide Placeholder;
    if raws != [] { StructuresAt(token, first + 1, raws[1..]); }
  }

  /** The structures' keys, none of them twice. */
  lemma StructureKeys(token: string, raws: seq<string>)
    requires IsToken(token)
    ensures var ss, keys := Structures(token, 0, raws), HtmlKeys(token, |raws|);
            && (forall k :: 0 <= k < |keys| ==> IsToken(keys[k].token) && ss[k].placeholder == keys[k].Name())
            && (forall i, j :: 0 <= i < j < |keys| ==> keys[i] != keys[j])
            && Raws(ss) == raws
  {
    hide Placeholder, Structures;
    StructuresAt(token, 0, raws);
  }

  lemma HolesAreKeyed(token: string, raws: seq<string>, pieces: seq<Piece>)
    requires HolesWithin(pieces, token, 0, |raws|) && forall q <- pieces :: q.Hole? ==> q.official == raws[q.key.number]
    ensures forall q <- pieces :: q.Hole? ==> HoleOf(q, Structures(token, 0, raws), HtmlKeys(token, |raws|))
  {
    hide Placeholder, Structures;
    StructuresAt(token, 0, raws);
    var keys := HtmlKeys(token, |raws|);
    forall q <- pieces | q.Hole? ensures HoleOf(q, Structures(token, 0, raws), keys)
    {
      assert q.key == keys[q.key.number];
    }
  }

  lemma TranslationMatches(p: Protected, token: string, raws: seq<string>, pieces: seq<Piece>)
    requires Translation(p, token, raws, pieces)
    ensures Matches(p.structures, HtmlKeys(token, |raws|), pieces) && Replaceable(p.structures) && TokensOk(pieces)
    ensures Raws(p.structures) == raws
  {
    hide Placeholder, Structures, HtmlKeys, HoleOf, Render, Settle, Bare, IsRaw, Contains;
    StructureKeys(token, raws);
    HolesAreKeyed(token, raws, pieces);
    MatchesReplaceable(p.structures, HtmlKeys(token, |raws|), pieces);
  }

  lemma CountsTell(p: Protected, token: string, raws: seq<string>, pieces: seq<Piece>)
    requires Translation(p, token, raws, pieces) && Replaceable(p.structures)
    ensures EachOnce(p.structures, Render(pieces)) <==> AllOnce(pieces, token, 0, |raws|)
  {
    hide Placeholder, Render, Settle, Count;
    TranslationMatches(p, token, raws, pieces);
    StructuresAt(token, 0, raws);
    forall k: nat | k < |raws|
      ensures Count(Render(pieces), p.structures[k].placeholder) == 1 <==> Times(pieces, Key(Html, token, k)) == 1
    {
      CountTells(pieces, Key(Html, token, k));
    }
  }

  lemma PositionIsStart(pieces: seq<Piece>, s: Structure, key: Key, j: nat)
    requires TokensOk(pieces) && IsToken(key.token) && !Contains(Settle(pieces), key.token)
    requires Times(pieces, key) == 1 && j < |pieces| && IsHole(pieces[j], key)
    requires s.placeholder == key.Name() && |s.placeholder| > 0 && Count(Render(pieces), s.placeholder) == 1
    ensures Position(s, Render(pieces)) == Start(pieces, j)
  {
    hide Placeholder, Render, Settle, Count;
    var i := TimesAt(pieces, key);
    TimesZero(pieces[i + 1..], key);
    forall m | 0 <= m < |pieces| ensures IsHole(pieces[m], key) <==> m == i
    {
      if m > i { assert pieces[m] == pieces[i + 1..][m - i - 1]; }
    }
    OnlyHole(pieces, key, i, "");
  }

  /** A hole's placeholder is found where the hole stands. */
  lemma HolePosition(p: Protected, token: string, raws: seq<string>, pieces: seq<Piece>, a: nat)
    requires Translation(p, token, raws, pieces) && Replaceable(p.structures)
    requires AllOnce(pieces, token, 0, |raws|) && EachOnce(p.structures, Render(pieces))
    requires a < |pieces| && pieces[a].Hole?
    ensures pieces[a].key.number < |raws| && pieces[a].key == Key(Html, token, pieces[a].key.number)
    ensures Position(p.structures[pieces[a].key.number], Render(pieces)) == Start(pieces, a)
  {
    hide Placeholder, Render, Settle, Count, Position, Structures, IsRaw, Bare, Contains;
    var key := pieces[a].key;
    assert pieces[a] in pieces && key == Key(Html, token, key.number);
    StructuresAt(token, 0, raws);
    var s := p.structures[key.number];
    assert s in p.structures && s.placeholder == Key(Html, token, 0 + key.number).Name();
    forall q <- pieces | q.Hole? ensures IsToken(q.key.token) { assert q.key == Key(Html, token, q.key.number); }
    assert Times(pieces, key) == 1 && Count(Render(pieces), s.placeholder) == 1;
    hide AllOnce, EachOnce, HolesWithin, Times, Replaceable;
    PositionIsStart(pieces, s, key, a);
  }

  /** A hole further right has a placeholder that is found further right. */
  lemma PositionsApart(p: Protected, token: string, raws: seq<string>, pieces: seq<Piece>, a: nat, b: nat)
    requires Translation(p, token, raws, pieces) && Replaceable(p.structures)
    requires AllOnce(pieces, token, 0, |raws|) && EachOnce(p.structures, Render(pieces))
    requires a < b < |pieces| && pieces[a].Hole? && pieces[b].Hole?
    ensures var m, n := pieces[a].key.number, pieces[b].key.number;
            && m < |raws| && n < |raws| && m != n
            && Position(p.structures[m], Render(pieces)) < Position(p.structures[n], Render(pieces))
  {
    hide Placeholder, Render, Settle, Count, Position, Structures, Translation;
    HolePosition(p, token, raws, pieces, a);
    HolePosition(p, token, raws, pieces, b);
    HolesApart(pieces, a, b);
    PlaceholderShape(Html, token, pieces[a].key.number) by { assert IsToken(token) by { TranslationMatches(p, token, raws, pieces); } }
  }

  lemma PositionsTell(p: Protected, token: string, raws: seq<string>, pieces: seq<Piece>)
    requires Translation(p, token, raws, pieces) && Replaceable(p.structures)
    requires AllOnce(pieces, token, 0, |raws|) && EachOnce(p.structures, Render(pieces))
    ensures InTextOrder(p.structures, Render(pieces)) <==> Increasing(pieces)
  {
    hide Placeholder, Render, Settle, Count, Position, Structures, Translation;
    TranslationMatches(p, token, raws, pieces);
    var text, ss := Render(pieces), p.structures;
    if Increasing(pieces) {
      forall m, n | 0 <= m < n < |ss| ensures Position(ss[m], text) <= Position(ss[n], text)
      {
        var a := TimesAt(pieces, Key(Html, token, m));
        var b := TimesAt(pieces, Key(Html, token, n));
        assert pieces[a].key.number < pieces[b].key.number && a < b;
        PositionsApart(p, token, raws, pieces, a, b);
      }
    }
    if InTextOrder(ss, text) {
      forall a, b | 0 <= a < b < |pieces| && pieces[a].Hole? && pieces[b].Hole? ensures pieces[a].key.number < pieces[b].key.number
      {
        var m, n := pieces[a].key.number, pieces[b].key.number;
        PositionsApart(p, token, raws, pieces, a, b);
        assert m < n;
      }
    }
  }

  lemma {:induction false} FillingsFollowNumbers(pieces: seq<Piece>, raws: seq<string>)
    requires forall q <- pieces :: q.Hole? ==> q.key.number < |raws| && q.official == raws[q.key.number]
    ensures |Fillings(pieces)| == |Numbers(pieces)|
    ensures forall k :: 0 <= k < |Numbers(pieces)| ==> Numbers(pieces)[k] < |raws| && Fillings(pieces)[k] == raws[Numbers(pieces)[k]]
  {
    if pieces != [] {
      assert pieces[0] in pieces;
      FillingsFollowNumbers(pieces[1..], raws);
    }
  }

  /**
   Restoring succeeds exactly when every placeholder stands once and in the original order, the
   text around them brings no markup and no reserved pattern, and the result is valid; the result
   is then the text with every token back in place.  The final comparison of token sequences never
   decides anything.
   */
  lemma RestoredIff(p: Protected, token: string, raws: seq<string>, pieces: seq<Piece>, valid: string -> bool)
    requires Translation(p, token, raws, pieces)
    ensures Replaceable(p.structures)
    ensures Restored(p, Render(pieces), valid)
            == if Numbers(pieces) == Upto(0, |raws|) && Clean(Bare(pieces))
                && valid(Settle(pieces)) then Some(Settle(pieces)) else None
    ensures Numbers(pieces) == Upto(0, |raws|) && Clean(Bare(pieces)) ==> Tokens(Settle(pieces)) == raws
  {
    hide Placeholder, Render, Settle, Count, Tokens, HasReserved;
    TranslationMatches(p, token, raws, pieces);
    CountsTell(p, token, raws, pieces);
    OrderIff(pieces, token, 0, |raws|);
    if AllOnce(pieces, token, 0, |raws|) {
      PositionsTell(p, token, raws, pieces);
      if Increasing(pieces) {
        TokensSettle(pieces, raws);
        BothReplaced(p, token, raws, pieces);
      }
    }
  }

  lemma TokensSettle(pieces: seq<Piece>, raws: seq<string>)
    requires forall q <- pieces :: q.Hole? ==> q.key.number < |raws| && q.official == raws[q.key.number]
    requires Numbers(pieces) == Upto(0, |raws|) && forall r <- raws :: IsRaw(r)
    ensures '<' !in Bare(pieces) && Tokens(Bare(pieces)) == [] ==> Tokens(Settle(pieces)) == raws
  {
    hide Placeholder, Tokens, Settle, TokenLen, Bare, Numbers, Fillings;
    FillingsFollowNumbers(pieces, raws);
    assert Fillings(pieces) == raws;
    forall q <- pieces | q.Hole? ensures IsRaw(q.official) { assert raws[q.key.number] in raws; }
    hide IsRaw, Upto;
    if '<' !in Bare(pieces) && Tokens(Bare(pieces)) == [] {
      assert "" + Bare(pieces) == Bare(pieces) && "" + Settle(pieces) == Settle(pieces);
      TokensOfPieces("", pieces);
    }
  }

  /** Deleting the placeholders leaves the bare text, replacing them the settled one. */
  lemma BothReplaced(p: Protected, token: string, raws: seq<string>, pieces: seq<Piece>)
    requires Translation(p, token, raws, pieces) && Replaceable(p.structures) && AllOnce(pieces, token, 0, |raws|)
    ensures ReplaceAll(p.structures, Render(pieces)) == Settle(pieces)
    ensures ReplaceAll(Blank(p.structures), Render(pieces)) == Bare(pieces)
    ensures Find(Bare(pieces), p.prefix, 0).None?
  {
    hide Placeholder, Render, Settle;
    TranslationMatches(p, token, raws, pieces);
    var keys := HtmlKeys(token, |raws|);
    ReplaceAllSettles(p.structures, keys, pieces);
    BlankMatches(p.structures, keys, pieces);
    BlankedSame(pieces);
    ReplaceAllSettles(Blank(p.structures), keys, Blanked(pieces));
    var found := Find(Bare(pieces), p.prefix, 0);
    if found.Some? { PrefixHasToken(Bare(pieces), token, found.value); }
  }

  lemma PrefixHasToken(text: string, token: string, at: nat)
    requires IsToken(token) && OccursAt(text, Prefix(Html, token), at)
    ensures Contains(text, token)
  {
    assert OccursAt(Prefix(Html, token), token, 12) by { assert Prefix(Html, token)[12..28] == token; }
    OccursInside(text, Prefix(Html, token), token, at, 12);
  }

  // ---------------------------------------------------------------- the round trip

  function Join(segments: seq<string>): string
  {
    if segments == [] then "" else segments[0] + Join(segments[1..])
  }

  /** Segments with the placeholders between them, in order. */
  lemma {:induction false} WovenInOrder(token: string, first: nat, segments: seq<string>, raws: seq<string>)
    requires |segments| == |raws| + 1
    ensures Numbers(Woven(Html, token, first, segments, raws)) == Upto(first, |raws|)
    ensures Bare(Woven(Html, token, first, segments, raws)) == Join(segments)
    decreases raws
  {
    hide Placeholder, Numbers, Bare;
    if raws == [] {
      LastPiece(segments[0]);
      assert segments == [segments[0]] && segments[0] + "" == segments[0];
      JoinOne(segments[0]);
    } else {
      var rest := Woven(Html, token, first + 1, segments[1..], raws[1..]);
      WovenInOrder(token, first + 1, segments[1..], raws[1..]);
      SegmentAndHole(segments[0], Hole(Key(Html, token, first), raws[0]), rest);
    }
  }

  lemma JoinOne(s: string)
    ensures Join([s]) == s
  {
    assert [s][1..] == [] && s + "" == s;
  }

  lemma LastPiece(s: string)
    ensures Numbers([Plain(s)]) == [] && Bare([Plain(s)]) == s
  {
    assert [Plain(s)][1..] == [] && Blanked([Plain(s)]) == [Plain(s)];
    RenderLast(s);
  }

  lemma SegmentAndHole(s: string, hole: Piece, rest: seq<Piece>)
    requires hole.Hole?
    ensures Numbers([Plain(s), hole] + rest) == [hole.key.number] + Numbers(rest)
    ensures Bare([Plain(s), hole] + rest) == s + Bare(rest)
  {
    hide Placeholder;
    var pieces := [Plain(s), hole] + rest;
    assert pieces[1..] == [hole] + rest && ([hole] + rest)[1..] == rest;
    assert Numbers(pieces) == Numbers(pieces[1..]) == [hole.key.number] + Numbers(rest);
    assert Blanked(pieces) == [Plain(s), hole.(official := "")] + Blanked(rest);
    RenderTwo(Plain(s), hole.(official := ""), Blanked(rest));
    assert s + "" == s;
  }

  /** A protected text whose visible segments were replaced by others. */
  ghost predicate Reworded(html: string, token: string, p: Protected, segments: seq<string>)
  {
    && IsProtected(html, token, p) && IsToken(token) && |segments| == |Tokens(html)| + 1
    && !Contains(Join(segments), token) && !Contains(Weave(segments, Tokens(html)), token)
  }

  /**
   Whatever the visible segments become, restoring yields them with every original tag and entity
   in place, exactly when together they bring no markup and no reserved pattern and the result is
   valid; its token sequence is then the original one.
   */
  lemma RewordedRestores(html: string, token: string, p: Protected, segments: seq<string>, valid: string -> bool)
    requires Reworded(html, token, p, segments)
    ensures Replaceable(p.structures)
    ensures var result := Weave(segments, Tokens(html));
            && Restored(p, Weave(segments, Names(Html, token, 0, |Tokens(html)|)), valid)
               == (if Clean(Join(segments)) && valid(result) then Some(result) else None)
            && (Clean(Join(segments)) ==> Tokens(result) == Tokens(html))
  {
    hide Placeholder, Render, Settle, Restored, Clean, Tokens, Visible, Weave, Woven, Names, Upto, Contains, IsRaw;
    var raws := Tokens(html);
    var pieces := Woven(Html, token, 0, segments, raws);
    TokensAreRaw(html);
    WovenShows(Html, token, 0, segments, raws);
    WovenHoles(Html, token, 0, segments, raws);
    WovenInOrder(token, 0, segments, raws);
    forall q <- pieces | q.Hole?
      ensures q.key == Key(Html, token, q.key.number) && q.key.number < |raws| && q.official == raws[q.key.number]
    {
      assert HoleAmong(q, Html, token, 0, raws);
    }
    RestoredIff(p, token, raws, pieces, valid);
  }

  /** Restoring the protected text itself gives back exactly the original. */
  lemma ProtectedRestores(html: string, token: string, p: Protected, valid: string -> bool)
    requires IsProtected(html, token, p) && IsToken(token)
    requires !Contains(html, token) && !Contains(Join(Visible(html)), token)
    ensures Replaceable(p.structures)
    ensures Restored(p, p.text, valid) == if Clean(Join(Visible(html))) && valid(html) then Some(html) else None
  {
    hide Placeholder, Restored, Clean, Tokens, Visible;
    VisibleWeaves(html);
    RewordedRestores(html, token, p, Visible(html), valid);
  }

  /** Visible text without a bare bracket or ampersand is clean unless it spells a reserved placeholder. */
  lemma {:induction false} WellEscaped(s: string)
    requires '<' !in s && '&' !in s
    ensures Clean(s) <==> !HasReserved(s)
    ensures Tokens(s) == []
  {
    if s != "" {
      assert s[0] in s;
      forall c <- s[1..] ensures c in s {}
      WellEscaped(s[1..]);
    }
  }

  // ---------------------------------------------------------------- the visible segments

  /** `interleave_visible_segments`. */
  method Interleave(p: Protected, segments: seq<string>) returns (r: Option<string>)
    ensures r.None? <==> |segments| != |p.structures| + 1
    ensures r.Some? ==> r.value == Weave(segments, PlaceholdersOf(p.structures))
  {
    if |segments| != |p.structures| + 1 { return None; }
    var parts, names := "", PlaceholdersOf(p.structures);
    assert segments[0..] == segments && names[0..] == names;
    for n := 0 to |p.structures|
      invariant Weave(segments, names) == parts + Weave(segments[n..], names[n..])
    {
      assert segments[n..][1..] == segments[n + 1..] && names[n..][1..] == names[n + 1..];
      Associative(parts, segments[n] + names[n], Weave(segments[n + 1..], names[n + 1..]));
      parts := parts + (segments[n] + p.structures[n].placeholder);
    }
    r := Some(parts + segments[|segments| - 1]);
  }

  function PlaceholdersOf(structures: seq<Structure>): (r: seq<string>)
    ensures |r| == |structures| && forall k :: 0 <= k < |r| ==> r[k] == structures[k].placeholder
  {
    seq(|structures|, k requires 0 <= k < |structures| => structures[k].placeholder)
  }

  lemma PlaceholdersAreNames(token: string, raws: seq<string>)
    ensures PlaceholdersOf(Structures(token, 0, raws)) == Names(Html, token, 0, |raws|)
  {
    hide Placeholder;
    StructuresAt(token, 0, raws);
    NamesAt(Html, token, 0, |raws|);
  }

  /** The segments are found in the protected text one by one. */
  lemma SegmentsInText(html: string, token: string, n: nat)
    requires IsToken(token) && !Contains(html, token) && n < |Tokens(html)|
    ensures FoundBehind(ProtectedPieces(html, token), 2 * n, Placeholder(Html, token, n), Visible(html)[n])
  {
    hide Placeholder, Render, Settle, Visible, Tokens, Woven;
    var segments, raws, key := Visible(html), Tokens(html), Key(Html, token, n);
    var pieces := Woven(Html, token, 0, segments, raws);
    WovenAt(Html, token, 0, segments, raws);
    WovenShows(Html, token, 0, segments, raws);
    WovenHoles(Html, token, 0, segments, raws);
    VisibleWeaves(html);
    assert pieces[2 * n] == Plain(segments[n]) && pieces[2 * n + 1] == Hole(Key(Html, token, 0 + n), raws[n]);
    forall q <- pieces | q.Hole? ensures IsToken(q.key.token) { assert HoleAmong(q, Html, token, 0, raws); }
    NextHole(pieces, 2 * n, key);
  }

  function ProtectedPieces(html: string, token: string): (r: seq<Piece>)
  {
    Woven(Html, token, 0, Visible(html), Tokens(html))
  }

  /** The last segment is what follows the last placeholder. */
  lemma LastSegment(html: string, token: string)
    ensures var pieces, last := ProtectedPieces(html, token), 2 * |Tokens(html)|;
            && |pieces| == last + 1 && Start(pieces, last) <= |Render(pieces)|
            && Render(pieces)[Start(pieces, last)..] == Visible(html)[|Tokens(html)|]
  {
    hide Placeholder, Render, Settle, Visible, Tokens, Woven;
    var segments, raws := Visible(html), Tokens(html);
    var pieces := Woven(Html, token, 0, segments, raws);
    WovenAt(Html, token, 0, segments, raws);
    StartStep(pieces, 2 * |raws|);
    assert pieces[2 * |raws|] == Plain(segments[|raws|]);
    assert pieces[..|pieces|] == pieces;
    assert Start(pieces, 2 * |raws| + 1) == |Render(pieces)|;
  }

  /** `visible_segments`; it never raises, and interleaving its result gives the protected text. */
  method VisibleSegments(p: Protected, ghost html: string, ghost token: string) returns (r: Option<seq<string>>)
    requires IsProtected(html, token, p) && IsToken(token) && !Contains(html, token)
    ensures r == Some(Visible(html))
    ensures Weave(Visible(html), PlaceholdersOf(p.structures)) == p.text
  {
    hide Placeholder, Render, Settle, Visible, Tokens, Structures, ProtectedPieces;
    ghost var segments, pieces := Visible(html), ProtectedPieces(html, token);
    ProtectedText(html, token, p);
    var found: seq<string>, cursor: nat := [], 0;
    assert pieces[..0] == [];
    RenderNothing();
    for n := 0 to |p.structures|
      invariant found == segments[..n] && 2 * n < |pieces| && cursor == Start(pieces, 2 * n) && cursor <= |p.text|
    {
      SegmentsInText(html, token, n);
      assert 2 * (n + 1) < |pieces| && segments[..n + 1] == segments[..n] + [segments[n]];
      var position := Find(p.text, p.structures[n].placeholder, cursor);
      if position.None? { return None; }
      found := found + [p.text[cursor..position.value]];
      cursor := position.value + |p.structures[n].placeholder|;
    }
    LastSegment(html, token);
    assert segments == segments[..|p.structures|] + [segments[|p.structures|]];
    r := Some(found + [p.text[cursor..]]);
  }

  lemma ProtectedText(html: string, token: string, p: Protected)
    requires IsProtected(html, token, p)
    ensures p.text == Render(ProtectedPieces(html, token)) && |ProtectedPieces(html, token)| == 2 * |Tokens(html)| + 1
    ensures |p.structures| == |Tokens(html)|
    ensures forall n :: 0 <= n < |p.structures| ==> p.structures[n].placeholder == Placeholder(Html, token, n)
    ensures Weave(Visible(html), PlaceholdersOf(p.structures)) == p.text
  {
    hide Placeholder, Render, Settle, Visible, Tokens, Structures;
    WovenShows(Html, token, 0, Visible(html), Tokens(html));
    WovenAt(Html, token, 0, Visible(html), Tokens(html));
    PlaceholdersAreNames(token, Tokens(html));
    StructuresAt(token, 0, Tokens(html));
  }
}
