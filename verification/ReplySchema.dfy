/** The reply index on disk: what its writer builds and its reader accepts. */
module ReplySchema {
  import opened Text

  const VERSION := 1

  /** A channel post as forwarded into its group. */
  datatype Key = Key(chat: int, message: int)

  datatype Entry = Entry(expires: real, replies: seq<int>)

  /** A JSON value where a row wants a number. */
  datatype Scalar = Int(n: int) | Float(x: real) | NotFinite | Flag(b: bool) | Other

  datatype Raw = Raw(chat: Scalar, message: Scalar, expires: Scalar, replies: Option<seq<Scalar>>) | NotARow

  datatype Payload = Payload(version: Scalar, entries: Option<seq<Raw>>) | NotAnObject

  datatype Row = Row(key: Key, entry: Entry)

  function StrictInts(values: seq<Scalar>): (r: Option<seq<int>>)
    ensures r.Some? <==> forall v <- values :: v.Int?
    ensures r.Some? ==> |r.value| == |values| && forall k :: 0 <= k < |values| ==> values[k] == Int(r.value[k])
  {
    if values == [] then Some([])
    else if !values[0].Int? then None
    else
      var rest := StrictInts(values[1..]);
      if rest.None? then None else Some([values[0].n] + rest.value)
  }

  /** `_parse_row`; `None` where it raises. */
  function ParseRow(raw: Raw): Option<Row>
  {
    if raw.NotARow? || !raw.chat.Int? || !raw.message.Int? || !(raw.expires.Int? || raw.expires.Float?) then None
    else if raw.replies.None? || raw.replies.value == [] then None
    else
      var replies := StrictInts(raw.replies.value);
      var expires := if raw.expires.Int? then raw.expires.n as real else raw.expires.x;
      if replies.None? then None else Some(Row(Key(raw.chat.n, raw.message.n), Entry(expires, replies.value)))
  }

  /** Exactly what a row must be: whole numbers, a finite time, and at least one reply. */
  lemma ParsesIff(raw: Raw, row: Row)
    ensures ParseRow(raw) == Some(row) <==>
              && raw.Raw? && raw.chat == Int(row.key.chat) && raw.message == Int(row.key.message)
              && (raw.expires == Float(row.entry.expires)
                  || (raw.expires.Int? && raw.expires.n as real == row.entry.expires))
              && row.entry.replies != [] && raw.replies == Some(IntsOf(row.entry.replies))
  {
    if raw.Raw? && raw.replies.Some? {
      var values := raw.replies.value;
      if StrictInts(values).Some? { assert values == IntsOf(StrictInts(values).value); }
      if values == IntsOf(row.entry.replies) {
        assert forall v <- values :: v.Int?;
        assert StrictInts(values).value == row.entry.replies;
      }
    }
  }

  /** The readable rows among some, in order. */
  function Readable(raws: seq<Raw>): seq<Row>
  {
    if raws == [] then []
    else
      var n := |raws| - 1;
      Readable(raws[..n]) + (if ParseRow(raws[n]).Some? then [ParseRow(raws[n]).value] else [])
  }

  predicate Supported(p: Payload) { p.Payload? && p.version == Int(VERSION) && p.entries.Some? }

  /** `parse_channel_reply_payload(payload, allow_partial=partial)`: the rows and whether some were malformed. */
  method ParsePayload(p: Payload, partial: bool) returns (r: Option<(seq<Row>, bool)>)
    ensures r.Some? ==> Supported(p) && r.value.0 == Readable(p.entries.value)
                        && (r.value.1 <==> exists raw <- p.entries.value :: ParseRow(raw).None?)
    ensures r.None? <==> !Supported(p) || (!partial && exists raw <- p.entries.value :: ParseRow(raw).None?)
  {
    hide ParseRow;
    if !Supported(p) { return None; }
    var raws := p.entries.value;
    var parsed: seq<Row>, malformed := [], false;
    for n := 0 to |raws|
      invariant parsed == Readable(raws[..n])
      invariant malformed <==> exists raw <- raws[..n] :: ParseRow(raw).None?
      invariant malformed ==> partial
    {
      assert raws[..n + 1][..n] == raws[..n] && raws[..n + 1] == raws[..n] + [raws[n]];
      var row := ParseRow(raws[n]);
      if row.Some? {
        parsed := parsed + [row.value];
      } else {
        assert raws[n] in raws;
        if !partial { return None; }
        malformed := true;
      }
    }
    assert raws[..|raws|] == raws;
    r := Some((parsed, malformed));
  }

  // ---------------------------------------------------------------- what the index writes

  function RawOf(k: Key, e: Entry): Raw
  {
    Raw(Int(k.chat), Int(k.message), Float(e.expires), Some(IntsOf(e.replies)))
  }

  function IntsOf(ids: seq<int>): (r: seq<Scalar>)
    ensures |r| == |ids| && forall k :: 0 <= k < |ids| ==> r[k] == Int(ids[k])
  {
    seq(|ids|, k requires 0 <= k < |ids| => Int(ids[k]))
  }

  ghost predicate Sound(entries: map<Key, Entry>) { forall k <- entries.Keys :: entries[k].replies != [] }

  /** A payload with exactly one row per entry. */
  ghost predicate Encodes(p: Payload, entries: map<Key, Entry>)
  {
    exists keys :: Lists(p, entries, keys)
  }

  ghost predicate Lists(p: Payload, entries: map<Key, Entry>, keys: seq<Key>)
  {
    && Supported(p) && |p.entries.value| == |keys|
    && (forall k :: k in keys <==> k in entries)
    && (forall i :: 0 <= i < |keys| ==> keys[i] in entries && p.entries.value[i] == RawOf(keys[i], entries[keys[i]]))
    && (forall i, j :: 0 <= i < j < |keys| ==> keys[i] != keys[j])
  }

  /** `_build_payload`, in whatever order the keys come. */
  method BuildPayload(entries: map<Key, Entry>) returns (p: Payload)
    ensures Encodes(p, entries)
  {
    hide RawOf;
    var rows: seq<Raw>, left := [], entries.Keys;
    ghost var keys: seq<Key> := [];
    while exists k :: k in left
      invariant left <= entries.Keys && |rows| == |keys|
      invariant forall k :: k in keys <==> k in entries && k !in left
      invariant forall i :: 0 <= i < |keys| ==> keys[i] in entries && rows[i] == RawOf(keys[i], entries[keys[i]])
      invariant forall i, j :: 0 <= i < j < |keys| ==> keys[i] != keys[j]
      decreases left
    {
      var k :| k in left;
      rows, left := rows + [RawOf(k, entries[k])], left - {k};
      keys := keys + [k];
    }
    assert left == {};
    p := Payload(Int(VERSION), Some(rows));
    assert Lists(p, entries, keys);
  }

  lemma RowRoundTrip(k: Key, e: Entry)
    requires e.replies != []
    ensures ParseRow(RawOf(k, e)) == Some(Row(k, e))
  {
    var ints := IntsOf(e.replies);
    assert forall v <- ints :: v.Int?;
    assert StrictInts(ints).value == e.replies;
  }

  /** Reading back what was written gives the same rows, none malformed. */
  lemma {:induction false} WrittenIsReadable(raws: seq<Raw>, keys: seq<Key>, entries: map<Key, Entry>)
    requires Sound(entries) && |raws| == |keys|
    requires forall i :: 0 <= i < |keys| ==> keys[i] in entries && raws[i] == RawOf(keys[i], entries[keys[i]])
    ensures |Readable(raws)| == |keys|
        && forall i :: 0 <= i < |keys| ==> Readable(raws)[i] == Row(keys[i], entries[keys[i]])
    ensures forall raw <- raws :: ParseRow(raw).Some?
  {
    hide RawOf, ParseRow;
    if raws != [] {
      var n := |raws| - 1;
      assert forall i :: 0 <= i < n ==> raws[..n][i] == raws[i] && keys[..n][i] == keys[i];
      WrittenIsReadable(raws[..n], keys[..n], entries);
      assert keys[n] in entries.Keys;
      RowRoundTrip(keys[n], entries[keys[n]]);
      assert raws == raws[..n] + [raws[n]];
    }
  }

  /** `_load`'s loop: rows still alive, later rows of a key over earlier ones. */
  function Loaded(rows: seq<Row>, now: real): map<Key, Entry>
  {
    if rows == [] then map[]
    else
      var row, before := rows[|rows| - 1], Loaded(rows[..|rows| - 1], now);
      if row.entry.expires <= now then before else before[row.key := row.entry]
  }

  /** Row `i` is a readable one of the key that is still alive. */
  predicate LivingAt(raws: seq<Raw>, i: nat, k: Key, now: real)
  {
    i < |raws| && ParseRow(raws[i]).Some? && ParseRow(raws[i]).value.key == k
        && ParseRow(raws[i]).value.entry.expires > now
  }

  /** And the last such. */
  ghost predicate LastLivingAt(raws: seq<Raw>, i: nat, k: Key, now: real)
  {
    LivingAt(raws, i, k, now) && forall j: nat :: LivingAt(raws, j, k, now) ==> j <= i
  }

  /** Of any payload, malformed rows and all, loading keeps each key's last living row and nothing else. */
  lemma {:induction false} LoadingKeeps(raws: seq<Raw>, now: real)
    ensures var m := Loaded(Readable(raws), now);
            && (forall k: Key, i: nat :: LastLivingAt(raws, i, k, now) ==> k in m && m[k] == ParseRow(raws[i]).value.entry)
            && (forall k <- m.Keys :: exists i: nat :: LastLivingAt(raws, i, k, now))
  {
    hide ParseRow;
    if raws != [] {
      var n := |raws| - 1;
      var front, raw := raws[..n], raws[n];
      LoadingKeeps(front, now);
      assert raws == front + [raw];
      LoadedMore(front, raw, now);
      OneMoreLiving(front, raw, now);
      var before, m := Loaded(Readable(front), now), Loaded(Readable(raws), now);
      forall k: Key, i: nat | LastLivingAt(raws, i, k, now) ensures k in m && m[k] == ParseRow(raws[i]).value.entry {
        if i < n { assert LastLivingAt(front, i, k, now); }
      }
      forall k <- m.Keys ensures exists i: nat :: LastLivingAt(raws, i, k, now) {
        if LivingAt(raws, n, k, now) {
          assert LastLivingAt(raws, n, k, now);
        } else {
          assert k in before.Keys;
          var i: nat :| LastLivingAt(front, i, k, now);
          assert LastLivingAt(raws, i, k, now);
        }
      }
    }
  }

  lemma LoadedMore(front: seq<Raw>, raw: Raw, now: real)
    ensures Loaded(Readable(front + [raw]), now)
            == if ParseRow(raw).Some? && ParseRow(raw).value.entry.expires > now
               then Loaded(Readable(front), now)[ParseRow(raw).value.key := ParseRow(raw).value.entry]
               else Loaded(Readable(front), now)
  {
    hide ParseRow;
    assert (front + [raw])[..|front|] == front;
    if ParseRow(raw).Some? {
      var rows := Readable(front) + [ParseRow(raw).value];
      assert Readable(front + [raw]) == rows && rows[..|rows| - 1] == Readable(front);
    } else {
      assert Readable(front + [raw]) == Readable(front) + [] == Readable(front);
    }
  }

  lemma OneMoreLiving(front: seq<Raw>, raw: Raw, now: real)
    ensures forall k: Key, i: nat :: i < |front| ==> (LivingAt(front + [raw], i, k, now) <==> LivingAt(front, i, k, now))
    ensures forall k: Key, i: nat :: i < |front| ==>
              (LastLivingAt(front + [raw], i, k, now)
               <==> LastLivingAt(front, i, k, now) && !LivingAt(front + [raw], |front|, k, now))
    ensures forall k: Key :: LastLivingAt(front + [raw], |front|, k, now) <==> LivingAt(front + [raw], |front|, k, now)
  {
    hide ParseRow;
    var raws := front + [raw];
    forall k: Key, i: nat ensures i < |front| ==> (LivingAt(raws, i, k, now) <==> LivingAt(front, i, k, now)) {}
    hide LivingAt;
    forall k: Key, j: nat | LivingAt(raws, j, k, now) ensures j <= |front| { LivingIn(raws, j, k, now); }
    forall k: Key, j: nat | LivingAt(front, j, k, now) ensures j < |front| { LivingIn(front, j, k, now); }
    forall k: Key, i: nat | i < |front|
      ensures LastLivingAt(raws, i, k, now) <==> LastLivingAt(front, i, k, now) && !LivingAt(raws, |front|, k, now)
    {
      if LastLivingAt(front, i, k, now) && !LivingAt(raws, |front|, k, now) {
        forall j: nat | LivingAt(raws, j, k, now) ensures j <= i { assert j < |front|; }
      }
      if LastLivingAt(raws, i, k, now) {
        forall j: nat | LivingAt(front, j, k, now) ensures j <= i { assert LivingAt(raws, j, k, now); }
      }
    }
  }

  lemma LivingIn(raws: seq<Raw>, i: nat, k: Key, now: real)
    requires LivingAt(raws, i, k, now)
    ensures i < |raws|
  {
  }

  lemma {:induction false} LoadedIs(rows: seq<Row>, keys: seq<Key>, entries: map<Key, Entry>, now: real)
    requires |rows| == |keys| && forall i :: 0 <= i < |keys| ==> keys[i] in entries && rows[i] == Row(keys[i], entries[keys[i]])
    ensures forall k :: k in Loaded(rows, now) <==> k in keys && k in entries && entries[k].expires > now
    ensures forall k <- Loaded(rows, now).Keys :: k in entries && Loaded(rows, now)[k] == entries[k]
  {
    if rows != [] {
      var n := |rows| - 1;
      assert forall i :: 0 <= i < n ==> rows[..n][i] == rows[i] && keys[..n][i] == keys[i];
      LoadedIs(rows[..n], keys[..n], entries, now);
      assert keys == keys[..n] + [keys[n]];
    }
  }

  /** What a fresh index makes of a payload at `now`. */
  function FromDisk(p: Payload, now: real): map<Key, Entry>
  {
    if Supported(p) then Loaded(Readable(p.entries.value), now) else map[]
  }

  /** Saving and loading keeps exactly the entries still alive. */
  lemma SaveLoadRoundTrip(p: Payload, entries: map<Key, Entry>, now: real)
    requires Sound(entries) && Encodes(p, entries)
    ensures forall k :: k in FromDisk(p, now) <==> k in entries && entries[k].expires > now
    ensures forall k <- FromDisk(p, now).Keys :: FromDisk(p, now)[k] == entries[k]
  {
    hide RawOf, Readable, Loaded;
    var keys :| Lists(p, entries, keys);
    WrittenIsReadable(p.entries.value, keys, entries);
    LoadedIs(Readable(p.entries.value), keys, entries, now);
  }
}
