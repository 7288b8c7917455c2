/** The default splitter: chunks of whole lines, longer lines hard-wrapped. */
module PlainText {
  import opened TelegramText

  /** `"\n".join(lines)`. */
  function Join(lines: seq<string>): string
  {
    if lines == [] then ""
    else if |lines| == 1 then lines[0]
    else Join(lines[..|lines| - 1]) + "\n" + lines[|lines| - 1]
  }

  /** `text.split("\n")`. */
  function Lines(text: string): (r: seq<string>)
    ensures |r| > 0
  {
    if text == "" then [""]
    else
      var n := |text| - 1;
      var before := Lines(text[..n]);
      var k := |before| - 1;
      if text[n] == '\n' then before + [""] else before[..k] + [before[k] + [text[n]]]
  }

  lemma {:induction false} LinesJoin(text: string)
    ensures Join(Lines(text)) == text
  {
    if text != "" {
      var n := |text| - 1;
      var before := Lines(text[..n]);
      LinesJoin(text[..n]);
      assert text == text[..n] + [text[n]];
      if text[n] == '\n' {
        assert Lines(text)[..|before|] == before;
      } else {
        assert Lines(text)[..|before| - 1] == before[..|before| - 1];
      }
    }
  }

  /** `s` with some of its newlines, and nothing else, left out. */
  predicate Thinned(s: string, t: string)
  {
    if s == "" then t == ""
    else (t != "" && t[0] == s[0] && Thinned(s[1..], t[1..])) || (s[0] == '\n' && Thinned(s[1..], t))
  }

  lemma {:induction false} ThinnedSelf(s: string)
    ensures Thinned(s, s)
  {
    if s != "" { ThinnedSelf(s[1..]); }
  }

  lemma {:induction false} ThinnedJoin(s: string, t: string, u: string, v: string)
    requires Thinned(s, t) && Thinned(u, v)
    ensures Thinned(s + u, t + v)
  {
    if s == "" {
      assert s + u == u && t + v == v;
    } else {
      assert (s + u)[1..] == s[1..] + u;
      if t != "" && t[0] == s[0] && Thinned(s[1..], t[1..]) {
        ThinnedJoin(s[1..], t[1..], u, v);
        assert (t + v)[1..] == t[1..] + v;
      } else {
        ThinnedJoin(s[1..], t, u, v);
      }
    }
  }

  predicate HasText(chunks: seq<string>) { exists c <- chunks :: c != "" }

  /** The text consumed so far and what became of it. */
  ghost predicate Progress(consumed: string, chunks: seq<string>, current: seq<string>, limit: nat)
  {
    && Thinned(consumed, Concat(chunks) + Join(current))
    && (forall c <- chunks :: |c| <= limit) && |Join(current)| <= limit
  }

  lemma {:induction false} ConcatSnoc(chunks: seq<string>, c: string)
    ensures Concat(chunks + [c]) == Concat(chunks) + c
  {
    if chunks == [] {
      assert Concat([c]) == c + "";
    } else {
      assert (chunks + [c])[1..] == chunks[1..] + [c];
      ConcatSnoc(chunks[1..], c);
    }
  }

  /** `flush` changes nothing that counts. */
  lemma Flushed(consumed: string, chunks: seq<string>, current: seq<string>, limit: nat)
    requires Progress(consumed, chunks, current, limit)
    ensures Progress(consumed, chunks + [Join(current)], [], limit)
  {
    hide Thinned;
    ConcatSnoc(chunks, Join(current));
    assert Concat(chunks + [Join(current)]) + "" == Concat(chunks) + Join(current);
    assert Join(current) in chunks + [Join(current)];
    assert forall c <- chunks :: c in chunks + [Join(current)];
  }

  /** A piece of a line goes out as a chunk of its own. */
  lemma Wrapped(consumed: string, chunks: seq<string>, piece: string, limit: nat)
    requires Progress(consumed, chunks, [], limit) && 0 < |piece| <= limit
    ensures Progress(consumed + piece, chunks + [piece], [], limit)
  {
    hide Thinned, Concat;
    ThinnedSelf(piece);
    assert Concat(chunks) + "" == Concat(chunks);
    ThinnedJoin(consumed, Concat(chunks), piece, piece);
    ConcatSnoc(chunks, piece);
    assert Concat(chunks + [piece]) + "" == Concat(chunks) + piece;
    assert piece in chunks + [piece];
  }

  /** A newline is dropped where a chunk ends anyway. */
  lemma NewlineDropped(consumed: string, chunks: seq<string>, separator: string, limit: nat)
    requires Progress(consumed, chunks, [], limit) && (separator == "" || separator == "\n")
    ensures Progress(consumed + separator, chunks, [], limit)
  {
    hide Concat;
    assert "\n"[1..] == "" && Thinned("\n", "") && Thinned("", "");
    hide Thinned;
    assert Concat(chunks) + "" == Concat(chunks);
    ThinnedJoin(consumed, Concat(chunks), separator, "");
  }

  /** The first line of a chunk. */
  lemma Opened(consumed: string, chunks: seq<string>, line: string, limit: nat)
    requires Progress(consumed, chunks, [], limit) && |line| <= limit
    ensures Progress(consumed + line, chunks, [line], limit)
  {
    hide Thinned, Concat;
    ThinnedSelf(line);
    assert Concat(chunks) + "" == Concat(chunks);
    ThinnedJoin(consumed, Concat(chunks), line, line);
  }

  /** A further line of a chunk, its newline kept. */
  lemma Extended(consumed: string, chunks: seq<string>, current: seq<string>, line: string, limit: nat)
    requires Progress(consumed, chunks, current, limit) && current != [] && |Join(current)| + 1 + |line| <= limit
    ensures Progress((consumed + "\n") + line, chunks, current + [line], limit)
    ensures Join(current + [line]) == Join(current) + ("\n" + line)
  {
    hide Thinned, Concat;
    ThinnedSelf("\n" + line);
    ThinnedJoin(consumed, Concat(chunks) + Join(current), "\n" + line, "\n" + line);
    assert (current + [line])[..|current|] == current;
    assert Join(current) + "\n" + line == Join(current) + ("\n" + line);
    assert consumed + ("\n" + line) == (consumed + "\n") + line;
    assert Concat(chunks) + (Join(current) + ("\n" + line)) == (Concat(chunks) + Join(current)) + ("\n" + line);
  }

  // ---------------------------------------------------------------- whole lines, full chunks

  predicate NoBreaks(lines: seq<string>) { forall l <- lines :: '\n' !in l }

  lemma {:induction false} LinesUnbroken(text: string)
    ensures NoBreaks(Lines(text))
  {
    if text != "" { LinesUnbroken(text[..|text| - 1]); }
  }

  /** Joining lines and splitting them again gives the lines back. */
  lemma {:induction false} LinesOfJoin(lines: seq<string>)
    requires lines != [] && NoBreaks(lines)
    ensures Lines(Join(lines)) == lines
  {
    var front, last := lines[..|lines| - 1], lines[|lines| - 1];
    assert lines == front + [last] && forall l <- front :: l in lines;
    if front == [] {
      LineAlone(last);
      assert Join(lines) == last;
    } else {
      LinesOfJoin(front);
      LinesExtend(Join(front), last);
      assert Join(lines) == Join(front) + ("\n" + last);
    }
  }

  lemma {:induction false} LineAlone(line: string)
    requires '\n' !in line
    ensures Lines(line) == [line]
  {
    if line != "" {
      var front := line[..|line| - 1];
      assert line == front + [line[|line| - 1]];
      LineAlone(front);
    }
  }

  lemma {:induction false} LinesExtend(text: string, line: string)
    requires '\n' !in line
    ensures Lines(text + ("\n" + line)) == Lines(text) + [line]
    decreases |line|
  {
    var all := text + ("\n" + line);
    if line == "" {
      assert all[..|all| - 1] == text;
    } else {
      var front := line[..|line| - 1];
      assert line == front + [line[|line| - 1]];
      assert all[..|all| - 1] == text + ("\n" + front);
      LinesExtend(text, front);
    }
  }

  /** A line is whole in an open or a finished chunk. */
  ghost predicate Kept(line: string, chunks: seq<string>, current: seq<string>)
  {
    line in current || exists c <- chunks :: line in Lines(c)
  }

  /** Not even the next chunk's first line would have fitted. */
  predicate Tight(chunk: string, line: string, limit: nat) { |chunk| + 1 + |line| > limit }

  predicate Packed(chunks: seq<string>, limit: nat)
  {
    forall i :: 0 <= i < |chunks| - 1 ==> Tight(chunks[i], Lines(chunks[i + 1])[0], limit)
  }

  /** Between rounds: finished chunks are packed, and so is the last one against the open chunk. */
  ghost predicate Orderly(chunks: seq<string>, current: seq<string>, limit: nat)
  {
    && NoBreaks(current) && Packed(chunks, limit)
    && (chunks != [] ==>
          var last := chunks[|chunks| - 1];
          if current == [] then |last| == limit else Tight(last, current[0], limit))
  }

  /** A finished chunk keeps its lines. */
  lemma FlushKeeps(chunks: seq<string>, current: seq<string>)
    requires current != [] && NoBreaks(current)
    ensures forall l :: Kept(l, chunks, current) ==> Kept(l, chunks + [Join(current)], [])
  {
    LinesOfJoin(current);
    forall l | Kept(l, chunks, current) ensures Kept(l, chunks + [Join(current)], [])
    {
      if l in current {
        assert Join(current) in chunks + [Join(current)];
      } else {
        var c :| c in chunks && l in Lines(c);
        assert c in chunks + [Join(current)];
      }
    }
  }

  lemma PackedMore(chunks: seq<string>, c: string, limit: nat)
    requires Packed(chunks, limit) && (chunks != [] ==> Tight(chunks[|chunks| - 1], Lines(c)[0], limit))
    ensures Packed(chunks + [c], limit)
  {
  }

  /** Flushing because the next line does not fit. */
  lemma FlushOrderly(chunks: seq<string>, current: seq<string>, line: string, limit: nat)
    requires Orderly(chunks, current, limit) && current != [] && Tight(Join(current), line, limit) && '\n' !in line
    ensures Orderly(chunks + [Join(current)], [line], limit)
  {
    LinesOfJoin(current);
    PackedMore(chunks, Join(current), limit);
  }

  /** A piece of a long line after whatever went before. */
  lemma PieceOrderly(chunks: seq<string>, current: seq<string>, piece: string, limit: nat)
    requires Orderly(chunks, current, limit) && |piece| == limit && '\n' !in piece
    ensures Orderly((if current == [] then chunks else chunks + [Join(current)]) + [piece], [], limit)
  {
    LineAlone(piece);
    if current == [] {
      PackedMore(chunks, piece, limit);
    } else {
      LinesOfJoin(current);
      PackedMore(chunks, Join(current), limit);
      PackedMore(chunks + [Join(current)], piece, limit);
    }
  }

  lemma KeptMore(chunks: seq<string>, current: seq<string>, c: string)
    ensures forall l :: Kept(l, chunks, current) ==> Kept(l, chunks + [c], current)
  {
    forall l | Kept(l, chunks, current) ensures Kept(l, chunks + [c], current)
    {
      if l !in current {
        var d :| d in chunks && l in Lines(d);
        assert d in chunks + [c];
      }
    }
  }

  /** `max(1, int(limit))`. */
  function Effective(limit: int): (n: nat)
    ensures n >= 1
  {
    if limit < 1 then 1 else limit
  }

  function Separator(current: seq<string>): string { if current == [] then "" else "\n" }

  /** Something other than empty chunks comes of any text that is not empty. */
  ghost predicate Shows(consumed: string, chunks: seq<string>, current: seq<string>)
  {
    consumed != "" ==> HasText(chunks) || Join(current) != ""
  }

  /**
   `split_plain_text`: chunks are non-empty and within the limit; together they are the text with
   some newlines left out; a line that fits is whole in some chunk; a chunk ends only where the next
   one's first line would not have fitted; and a text that is not empty gives at least one chunk,
   so that the code's fallback to the whole text is never taken.
   */
  method SplitPlainText(text: string, limit: int) returns (r: seq<string>)
    ensures forall c <- r :: 0 < |c| <= Effective(limit)
    ensures Thinned(text, Concat(r))
    ensures forall l <- Lines(text) :: 0 < |l| <= Effective(limit) ==> exists c <- r :: l in Lines(c)
    ensures Packed(r, Effective(limit))
    ensures text != "" ==> r != []
  {
    hide Thinned, Concat, Packed, Kept, Lines, Orderly, Progress, Shows, AllDone, Join;
    var max := Effective(limit);
    var lines := Lines(text);
    LinesJoin(text);
    LinesUnbroken(text);
    var chunks: seq<string>, current: seq<string>, currentLen: nat := [], [], 0;
    NothingYet(max);
    NoLines();
    for n := 0 to |lines|
      invariant Progress(Join(lines[..n]), chunks, current, max) && Shows(Join(lines[..n]), chunks, current)
      invariant currentLen == |Join(current)| && (current == [] <==> n == 0) && Orderly(chunks, current, max)
      invariant forall k :: 0 <= k < n && |lines[k]| <= max ==> Kept(lines[k], chunks, current)
    {
      JoinNext(lines, n);
      assert lines[n] in lines;
      chunks, current, currentLen := AddLine(lines[n], chunks, current, currentLen, max, Join(lines[..n]));
      if |lines[n]| <= max { InOpenChunk(lines[n], chunks, current); }
    }
    assert lines[..|lines|] == lines;
    Closed(text, chunks, current, max);
    r := Nonempty(chunks + [Join(current)], max);
    Delivered(text, chunks + [Join(current)], r, max);
  }

  /** All lines consumed and the open chunk flushed. */
  ghost predicate AllDone(text: string, chunks: seq<string>, limit: nat)
  {
    && Progress(text, chunks, [], limit) && Packed(chunks, limit) && (text != "" ==> HasText(chunks))
    && forall l <- Lines(text) :: |l| <= limit ==> Kept(l, chunks, [])
  }

  lemma Closed(text: string, chunks: seq<string>, current: seq<string>, limit: nat)
    requires Progress(text, chunks, current, limit) && Shows(text, chunks, current)
    requires Orderly(chunks, current, limit) && current != []
    requires forall k :: 0 <= k < |Lines(text)| && |Lines(text)[k]| <= limit ==> Kept(Lines(text)[k], chunks, current)
    ensures AllDone(text, chunks + [Join(current)], limit) && Packed(chunks + [Join(current)], limit)
  {
    Flushed(text, chunks, current, limit);
    FlushedKeeps(chunks, current, limit);
    LastPacked(chunks, current, limit);
    hide Progress, Packed, Kept, Lines, Orderly;
    assert Join(current) in chunks + [Join(current)];
    assert forall c <- chunks :: c in chunks + [Join(current)];
    forall l <- Lines(text) | |l| <= limit ensures Kept(l, chunks + [Join(current)], [])
    {
      var k :| 0 <= k < |Lines(text)| && Lines(text)[k] == l;
      assert Kept(Lines(text)[k], chunks, current);
    }
  }

  lemma Delivered(text: string, chunks: seq<string>, r: seq<string>, limit: nat)
    requires AllDone(text, chunks, limit)
    requires (forall c :: c in r <==> c in chunks && c != "") && Concat(r) == Concat(chunks)
    ensures (forall c <- r :: 0 < |c| <= limit) && Thinned(text, Concat(r)) && (text != "" ==> r != [])
    ensures forall l <- Lines(text) :: 0 < |l| <= limit ==> exists c <- r :: l in Lines(c)
  {
    hide Thinned, Concat, Packed, Kept, Lines;
    assert Concat(chunks) + "" == Concat(chunks);
    NoLines();
    forall l <- Lines(text) | 0 < |l| <= limit ensures exists c <- r :: l in Lines(c)
    {
      assert Kept(l, chunks, []);
      KeptIn(l, chunks, r);
    }
  }

  lemma JoinNext(lines: seq<string>, n: nat)
    requires n < |lines|
    ensures Join(lines[..n + 1]) == (Join(lines[..n]) + (if n == 0 then "" else "\n")) + lines[n]
  {
    assert lines[..n + 1][..n] == lines[..n];
  }

  lemma InOpenChunk(line: string, chunks: seq<string>, current: seq<string>)
    requires line in current
    ensures Kept(line, chunks, current)
  {
  }

  /** Dropping empty chunks drops no line with text. */
  lemma KeptIn(line: string, chunks: seq<string>, r: seq<string>)
    requires Kept(line, chunks, []) && line != "" && forall c <- chunks :: c != "" ==> c in r
    ensures exists c <- r :: line in Lines(c)
  {
    var c :| c in chunks && line in Lines(c);
    EmptyLines();
    assert c in r;
  }

  lemma LastPacked(chunks: seq<string>, current: seq<string>, limit: nat)
    requires Orderly(chunks, current, limit) && current != []
    ensures Packed(chunks + [Join(current)], limit)
  {
    LinesOfJoin(current);
    PackedMore(chunks, Join(current), limit);
  }

  lemma NothingYet(limit: nat)
    ensures Progress("", [], [], limit) && Orderly([], [], limit) && Shows("", [], [])
  {
  }

  /** A line taken in whole: it joins the open chunk, or the open chunk is flushed first. */
  method AddShort(line: string, chunks: seq<string>, current: seq<string>, currentLen: nat, limit: nat,
          ghost consumed: string)
      returns (newChunks: seq<string>, newCurrent: seq<string>, newLen: nat)
    requires |line| <= limit && limit >= 1 && Progress(consumed, chunks, current, limit)
        && currentLen == |Join(current)|
    requires Orderly(chunks, current, limit) && '\n' !in line
    ensures Progress((consumed + Separator(current)) + line, newChunks, newCurrent, limit)
    ensures newCurrent != [] && newLen == |Join(newCurrent)| && Orderly(newChunks, newCurrent, limit)
    ensures line in newCurrent && forall l :: Kept(l, chunks, current) ==> Kept(l, newChunks, newCurrent)
    ensures HasText(chunks) || Join(current) != "" || line != "" || current != []
        ==> HasText(newChunks) || Join(newCurrent) != ""
  {
    hide Thinned, Concat, Packed, Lines;
    var extra := |line| + (if current != [] then 1 else 0);
    newChunks, newCurrent, newLen := chunks, current, currentLen;
    if newLen + extra > limit {
      Flushed(consumed, chunks, current, limit);
      NewlineDropped(consumed, chunks + [Join(current)], Separator(current), limit);
      Opened(consumed + Separator(current), chunks + [Join(current)], line, limit);
      FlushKeeps(chunks, current);
      FlushOrderly(chunks, current, line, limit);
      assert forall c <- chunks + [Join(current)] :: c in chunks || c == Join(current);
      assert Join(current) in chunks + [Join(current)] && forall c <- chunks :: c in chunks + [Join(current)];
      newChunks, newCurrent, newLen := chunks + [Join(current)], [], 0;
      extra := |line|;
    } else if current == [] {
      Opened(consumed, chunks, line, limit);
      assert consumed + "" == consumed;
    } else {
      Extended(consumed, chunks, current, line, limit);
    }
    newCurrent := newCurrent + [line];
    newLen := newLen + extra;
  }

  /** One round of the outer loop: a line too long is hard-wrapped first. */
  method AddLine(line: string, chunks: seq<string>, current: seq<string>, currentLen: nat, limit: nat,
          ghost consumed: string)
      returns (newChunks: seq<string>, newCurrent: seq<string>, newLen: nat)
    requires limit >= 1 && Progress(consumed, chunks, current, limit) && currentLen == |Join(current)|
    requires Shows(consumed, chunks, current) && (current == [] ==> consumed == "")
    requires Orderly(chunks, current, limit) && '\n' !in line
    ensures Progress((consumed + Separator(current)) + line, newChunks, newCurrent, limit)
    ensures Shows((consumed + Separator(current)) + line, newChunks, newCurrent)
    ensures newCurrent != [] && newLen == |Join(newCurrent)| && Orderly(newChunks, newCurrent, limit)
    ensures |line| <= limit ==> line in newCurrent
    ensures forall l :: Kept(l, chunks, current) ==> Kept(l, newChunks, newCurrent)
  {
    hide Thinned, Concat, Join, Progress, Packed, Orderly, Kept;
    if |line| <= limit {
      newChunks, newCurrent, newLen := AddShort(line, chunks, current, currentLen, limit, consumed);
      return;
    }
    newChunks := chunks;
    if current != [] { newChunks := chunks + [Join(current)]; }
    ghost var done, first := consumed + Separator(current), newChunks;
    BeforeWrap(consumed, chunks, current, limit);
    FlushedKeeps(chunks, current, limit);
    var rest := line;
    while |rest| > limit
      invariant Progress(done, newChunks, [], limit) && done + rest == (consumed + Separator(current)) + line
      invariant |rest| <= limit ==> HasText(newChunks)
      invariant '\n' !in rest && if rest == line then newChunks == first else Orderly(newChunks, [], limit)
      invariant forall l :: Kept(l, chunks, current) ==> Kept(l, newChunks, [])
      decreases |rest|
    {
      var piece := rest[..limit];
      Wrapped(done, newChunks, piece, limit);
      Reassociate(done, piece, rest[limit..], rest);
      if rest == line { PieceOrderly(chunks, current, piece, limit); } else { PieceOrderly(newChunks, [], piece, limit); }
      KeptMore(newChunks, [], piece);
      done := done + piece;
      newChunks := newChunks + [piece];
      assert piece in newChunks;
      rest := rest[limit..];
    }
    NoLines();
    newChunks, newCurrent, newLen := AddShort(rest, newChunks, [], 0, limit, done);
    assert (done + "") + rest == done + rest;
  }

  lemma FlushedKeeps(chunks: seq<string>, current: seq<string>, limit: nat)
    requires Orderly(chunks, current, limit)
    ensures forall l :: Kept(l, chunks, current) ==> Kept(l, if current == [] then chunks else chunks + [Join(current)], [])
  {
    hide Packed;
    if current != [] { FlushKeeps(chunks, current); }
  }

  lemma NoLines()
    ensures Join([]) == ""
  {
  }

  lemma Reassociate(a: string, b: string, c: string, bc: string)
    requires bc == b + c
    ensures (a + b) + c == a + bc
  {
  }

  lemma BeforeWrap(consumed: string, chunks: seq<string>, current: seq<string>, limit: nat)
    requires Progress(consumed, chunks, current, limit) && (current == [] ==> consumed == "")
    ensures Progress(consumed + Separator(current), if current == [] then chunks else chunks + [Join(current)], [], limit)
  {
    hide Thinned, Concat;
    if current == [] {
      assert consumed + "" == consumed;
    } else {
      Flushed(consumed, chunks, current, limit);
      NewlineDropped(consumed, chunks + [Join(current)], "\n", limit);
    }
  }

  /** `[chunk for chunk in chunks if chunk]`. */
  method Nonempty(chunks: seq<string>, ghost limit: nat) returns (r: seq<string>)
    requires Packed(chunks, limit)
    ensures forall c :: c in r <==> c in chunks && c != ""
    ensures Concat(r) == Concat(chunks) && Packed(r, limit)
  {
    hide Concat, Lines, Packed;
    r := [];
    assert Packed(r, limit) by { NonePacked(limit); }
    for n := 0 to |chunks|
      invariant forall c :: c in r <==> c in chunks[..n] && c != ""
      invariant Concat(r) == Concat(chunks[..n]) && Packed(r, limit)
      invariant n == 0 ==> r == []
      invariant n > 0 && r != []
          ==> r[|r| - 1] == chunks[n - 1] || (chunks[n - 1] == "" && Tight(r[|r| - 1], "", limit))
    {
      assert chunks[..n + 1] == chunks[..n] + [chunks[n]];
      ConcatSnoc(chunks[..n], chunks[n]);
      ConcatSnoc(r, chunks[n]);
      if n > 0 { PackedAt(chunks, n - 1, limit); }
      if chunks[n] != "" {
        PackedMore(r, chunks[n], limit);
        r := r + [chunks[n]];
      } else {
        EmptyLines();
        assert Concat(r) + "" == Concat(r);
      }
    }
    assert chunks[..|chunks|] == chunks;
  }

  lemma NonePacked(limit: nat)
    ensures Packed([], limit) && Concat([]) == ""
  {
  }

  lemma PackedAt(chunks: seq<string>, i: nat, limit: nat)
    requires Packed(chunks, limit) && i + 1 < |chunks|
    ensures Tight(chunks[i], Lines(chunks[i + 1])[0], limit)
  {
  }

  lemma EmptyLines()
    ensures Lines("") == [""]
  {
  }
}
