/** Per-chat settings: a JSON file updated under a lock, and each process's copy of it in memory. */
module ChatSettings {
  import opened Text
  import opened TelegramText

  datatype Settings = Settings(public: map<int, bool>, allowed: set<int>) {
    predicate IsPublic(chat: int) { chat in public && public[chat] }
    predicate IsAllowed(chat: int) { chat in allowed }
  }

  const EMPTY := Settings(map[], {})

  /** A JSON value where the file wants a flag or a chat id. */
  datatype Scalar = Flag(b: bool) | Number(n: int) | Words(s: string) | Other

  /** The settings file: absent, not JSON, JSON of the wrong shape, or its two members. */
  datatype File = Missing | Unreadable | BadShape | Members(public: seq<(string, Scalar)>, allowed: seq<Scalar>)

  /** `str.strip`. */
  function Strip(s: string): string
  {
    if s == "" then ""
    else if IsSpace(s[0]) then Strip(s[1..])
    else if IsSpace(s[|s| - 1]) then Strip(s[..|s| - 1])
    else s
  }

  /** The integer a string spells canonically: `int(s)` when `str(int(s)) == s`. */
  function Canonical(s: string): Option<int>
  {
    if |s| > 0 && AllDigits(s) && SignedDecimal(Value(s)) == s then Some(Value(s))
    else if |s| > 1 && s[0] == '-' && AllDigits(s[1..])
        && SignedDecimal(-(Value(s[1..]) as int)) == s then Some(-(Value(s[1..]) as int))
    else None
  }

  /** `_chat_id_from_json`. */
  function ChatId(v: Scalar): Option<int>
  {
    match v
    case Flag(_) => None
    case Number(n) => Some(n)
    case Words(s) => Canonical(Strip(s))
    case Other => None
  }

  function ParsePublic(entries: seq<(string, Scalar)>, strict: bool): Option<map<int, bool>>
  {
    if entries == [] then Some(map[])
    else
      var (key, value) := entries[|entries| - 1];
      var before := ParsePublic(entries[..|entries| - 1], strict);
      var id := ChatId(Words(key));
      if before.None? then None
      else if !value.Flag? || id.None? then (if strict then None else before)
      else Some(before.value[id.value := value.b])
  }

  function ParseAllowed(items: seq<Scalar>, strict: bool): Option<set<int>>
  {
    if items == [] then Some({})
    else
      var before := ParseAllowed(items[..|items| - 1], strict);
      var id := ChatId(items[|items| - 1]);
      if before.None? then None
      else if id.None? then (if strict then None else before)
      else Some(before.value + {id.value})
  }

  /** `_read_state`: strict reading raises (`None`) where lenient reading skips or starts empty. */
  function ReadState(file: File, strict: bool): Option<Settings>
  {
    match file
    case Missing => Some(EMPTY)
    case Unreadable => if strict then None else Some(EMPTY)
    case BadShape => if strict then None else Some(EMPTY)
    case Members(public, allowed) =>
      var p, a := ParsePublic(public, strict), ParseAllowed(allowed, strict);
      if p.None? || a.None? then None else Some(Settings(p.value, a.value))
  }

  // ---------------------------------------------------------------- what reading keeps

  predicate Blank(s: string) { forall i :: 0 <= i < |s| ==> IsSpace(s[i]) }

  /** The string is the chat's number with nothing but blanks around it. */
  ghost predicate Spells(s: string, chat: int)
  {
    exists before: string, after: string :: s == before + SignedDecimal(chat) + after && Blank(before) && Blank(after)
  }

  lemma {:induction false} StripIs(s: string) returns (before: string, after: string)
    ensures s == before + Strip(s) + after && Blank(before) && Blank(after)
    ensures Strip(s) != "" ==> !IsSpace(Strip(s)[0]) && !IsSpace(Strip(s)[|Strip(s)| - 1])
    decreases |s|
  {
    before, after := "", "";
    if s == "" {
    } else if IsSpace(s[0]) {
      before, after := StripIs(s[1..]);
      before := [s[0]] + before;
      assert s == [s[0]] + s[1..];
    } else if IsSpace(s[|s| - 1]) {
      before, after := StripIs(s[..|s| - 1]);
      assert before + Strip(s) + (after + [s[|s| - 1]]) == before + Strip(s) + after + [s[|s| - 1]];
      after := after + [s[|s| - 1]];
      assert s == s[..|s| - 1] + [s[|s| - 1]];
    }
  }

  lemma {:induction false} StripDrops(before: string, core: string, after: string)
    requires core != "" && !IsSpace(core[0]) && !IsSpace(core[|core| - 1]) && Blank(before) && Blank(after)
    ensures Strip(before + core + after) == core
    decreases |before| + |after|
  {
    var s := before + core + after;
    if before != "" {
      assert s[0] == before[0] && s[1..] == before[1..] + core + after;
      StripDrops(before[1..], core, after);
    } else if after != "" {
      var n := |after| - 1;
      assert s[0] == core[0] && s[|s| - 1] == after[n] && s[..|s| - 1] == before + core + after[..n];
      StripDrops(before, core, after[..n]);
    } else {
      assert s == core;
    }
  }

  /** A string names a chat exactly when it is its number, give or take blanks around it. */
  lemma ChatIdIs(s: string, chat: int)
    ensures ChatId(Words(s)) == Some(chat) <==> Spells(s, chat)
  {
    var core := SignedDecimal(chat);
    if ChatId(Words(s)) == Some(chat) {
      assert Strip(s) == core;
      var before, after := StripIs(s);
      assert s == before + core + after;
    }
    if Spells(s, chat) {
      var before: string, after: string :| s == before + core + after && Blank(before) && Blank(after);
      CanonicalRoundTrip(chat);
      DecimalEnds(chat);
      StripKeepsNumbers(core);
      StripDrops(before, core, after);
    }
  }

  lemma DecimalEnds(n: int)
    ensures var s := SignedDecimal(n); !IsSpace(s[0]) && !IsSpace(s[|s| - 1])
  {
    var s := SignedDecimal(n);
    var digits := if n < 0 then s[1..] else s;
    assert digits == Decimal(if n < 0 then -n else n) && s[|s| - 1] == digits[|digits| - 1];
  }

  /** An element of the allowed list that names the chat. */
  ghost predicate Names(v: Scalar, chat: int)
  {
    v == Number(chat) || (v.Words? && Spells(v.s, chat))
  }

  /** Row `k` is a flag of the chat. */
  ghost predicate FlagAt(rows: seq<(string, Scalar)>, k: nat, chat: int)
  {
    k < |rows| && rows[k].1.Flag? && Spells(rows[k].0, chat)
  }

  /** Row `k` is its last one. */
  ghost predicate LastFlagAt(rows: seq<(string, Scalar)>, k: nat, chat: int)
  {
    FlagAt(rows, k, chat) && forall j: nat :: FlagAt(rows, j, chat) ==> j <= k
  }

  /** The map holds each chat's last flag and nothing else. */
  ghost predicate KeepsFlags(rows: seq<(string, Scalar)>, public: map<int, bool>)
  {
    && (forall chat: int, k: nat :: LastFlagAt(rows, k, chat) ==> chat in public && public[chat] == rows[k].1.b)
    && (forall chat <- public.Keys :: exists k: nat :: LastFlagAt(rows, k, chat))
  }

  /** The set holds each chat that is named and no other. */
  ghost predicate KeepsAllowed(items: seq<Scalar>, allowed: set<int>)
  {
    forall chat: int :: chat in allowed <==> exists v <- items :: Names(v, chat)
  }

  /** Every row can be read. */
  ghost predicate RowsReadable(rows: seq<(string, Scalar)>)
  {
    forall row <- rows :: row.1.Flag? && exists chat: int :: Spells(row.0, chat)
  }

  ghost predicate ItemsReadable(items: seq<Scalar>)
  {
    forall v <- items :: exists chat: int :: Names(v, chat)
  }

  /** What a lenient reader finds in a file. */
  ghost predicate Holds(file: File, s: Settings)
  {
    if file.Members? then KeepsFlags(file.public, s.public) && KeepsAllowed(file.allowed, s.allowed) else s == EMPTY
  }

  /** Some chat is spelt exactly when one is read. */
  lemma ChatIdSome(v: Scalar)
    ensures ChatId(v).Some? <==> exists chat: int :: Names(v, chat)
    ensures forall chat: int :: Names(v, chat) <==> ChatId(v) == Some(chat)
  {
    if v.Words? {
      forall chat: int ensures Names(v, chat) <==> ChatId(v) == Some(chat) { ChatIdIs(v.s, chat); }
    }
    if ChatId(v).Some? { assert Names(v, ChatId(v).value); }
  }

  lemma {:induction false} ParseAllowedIs(items: seq<Scalar>, strict: bool)
    ensures var a := ParseAllowed(items, strict);
            && (a.None? <==> strict && !ItemsReadable(items)) && (a.Some? ==> KeepsAllowed(items, a.value))
  {
    hide Names, ChatId;
    if items != [] {
      var front, last := items[..|items| - 1], items[|items| - 1];
      assert items == front + [last];
      ParseAllowedIs(front, strict);
      ChatIdSome(last);
      forall chat: int
        ensures (exists v <- items :: Names(v, chat)) <==> (exists v <- front :: Names(v, chat)) || Names(last, chat)
      {
        if Names(last, chat) { assert last in items; }
        if v :| v in front && Names(v, chat) { assert v in items; }
      }
      assert ItemsReadable(items) <==> ItemsReadable(front) && ChatId(last).Some? by {
        assert forall v <- front :: v in items;
        assert last in items;
      }
    }
  }

  /** One row more: it is the last flag of the chat it names, if it is one. */
  lemma OneMoreRow(front: seq<(string, Scalar)>, row: (string, Scalar))
    ensures forall chat: int :: LastFlagAt(front + [row], |front|, chat) <==> row.1.Flag? && Spells(row.0, chat)
    ensures forall chat: int, k: nat :: k < |front| ==>
              (LastFlagAt(front + [row], k, chat) <==> LastFlagAt(front, k, chat) && !(row.1.Flag? && Spells(row.0, chat)))
  {
    hide Spells;
    var rows := front + [row];
    forall chat: int, k: nat ensures k < |front| ==> (FlagAt(rows, k, chat) <==> FlagAt(front, k, chat)) {}
    forall chat: int ensures FlagAt(rows, |front|, chat) <==> row.1.Flag? && Spells(row.0, chat) {}
    forall chat: int, k: nat | k < |front|
      ensures LastFlagAt(rows, k, chat) <==> LastFlagAt(front, k, chat) && !(row.1.Flag? && Spells(row.0, chat))
    {
      if LastFlagAt(rows, k, chat) {
        assert !FlagAt(rows, |front|, chat);
        forall j: nat | FlagAt(front, j, chat) ensures j <= k { assert FlagAt(rows, j, chat); }
      }
      if LastFlagAt(front, k, chat) && !(row.1.Flag? && Spells(row.0, chat)) {
        forall j: nat | FlagAt(rows, j, chat) ensures j <= k { assert j == |front| || FlagAt(front, j, chat); }
      }
    }
  }

  lemma {:induction false} ParsePublicIs(rows: seq<(string, Scalar)>, strict: bool)
    ensures var p := ParsePublic(rows, strict);
            && (p.None? <==> strict && !RowsReadable(rows)) && (p.Some? ==> KeepsFlags(rows, p.value))
  {
    hide ChatId, Spells, LastFlagAt;
    if rows == [] {
      NoFlags();
    } else {
      var front, row := rows[..|rows| - 1], rows[|rows| - 1];
      assert rows == front + [row];
      ParsePublicIs(front, strict);
      WordsSome(row.0);
      OneMoreRow(front, row);
      assert RowsReadable(rows) <==> RowsReadable(front) && row.1.Flag? && ChatId(Words(row.0)).Some? by {
        assert forall r <- front :: r in rows;
        assert row in rows;
      }
      if ParsePublic(front, strict).Some? && ParsePublic(rows, strict).Some? {
        KeepsOneMore(front, row, ParsePublic(front, strict).value, ParsePublic(rows, strict).value);
      }
    }
  }

  lemma WordsSome(s: string)
    ensures ChatId(Words(s)).Some? <==> exists chat: int :: Spells(s, chat)
    ensures forall chat: int :: Spells(s, chat) <==> ChatId(Words(s)) == Some(chat)
  {
    hide Spells, ChatId;
    forall chat: int ensures Spells(s, chat) <==> ChatId(Words(s)) == Some(chat) { ChatIdIs(s, chat); }
    if ChatId(Words(s)).Some? { assert Spells(s, ChatId(Words(s)).value); }
  }

  lemma NoFlags()
    ensures KeepsFlags([], map[])
  {
  }

  lemma KeepsOneMore(front: seq<(string, Scalar)>, row: (string, Scalar), before: map<int, bool>, public: map<int,
          bool>)
    requires KeepsFlags(front, before)
    requires if row.1.Flag? && ChatId(Words(row.0)).Some? then public == before[ChatId(Words(row.0)).value := row.1.b]
             else public == before
    ensures KeepsFlags(front + [row], public)
  {
    hide ChatId, Spells;
    var rows := front + [row];
    WordsSome(row.0);
    OneMoreRow(front, row);
    forall chat: int, k: nat | LastFlagAt(rows, k, chat) ensures chat in public && public[chat] == rows[k].1.b {
      if k < |front| { assert LastFlagAt(front, k, chat); }
    }
    forall chat <- public.Keys ensures exists k: nat :: LastFlagAt(rows, k, chat) {
      if row.1.Flag? && Spells(row.0, chat) {
        assert LastFlagAt(rows, |front|, chat);
      } else {
        assert chat in before.Keys;
        var k: nat :| LastFlagAt(front, k, chat);
        assert LastFlagAt(rows, k, chat);
      }
    }
  }

  /**
   Lenient reading never fails: of the two members it keeps exactly the readable rows, the last flag
   of a chat winning, and of anything else nothing.  Strict reading finds the same, and fails
   exactly for a file that is there but is not two members of readable rows.
   */
  lemma ReadingKeeps(file: File)
    ensures ReadState(file, false).Some? && Holds(file, ReadState(file, false).value)
    ensures ReadState(file, true).Some?
            <==> file.Missing? || (file.Members? && RowsReadable(file.public) && ItemsReadable(file.allowed))
    ensures ReadState(file, true).Some? ==> ReadState(file, true) == ReadState(file, false)
  {
    if file.Members? {
      ParsePublicIs(file.public, false);
      ParsePublicIs(file.public, true);
      ParseAllowedIs(file.allowed, false);
      ParseAllowedIs(file.allowed, true);
      if ReadState(file, true).Some? {
        StrictIsLenientPublic(file.public);
        StrictIsLenientAllowed(file.allowed);
      }
    }
  }

  lemma {:induction false} StrictIsLenientPublic(rows: seq<(string, Scalar)>)
    ensures ParsePublic(rows, true).Some? ==> ParsePublic(rows, true) == ParsePublic(rows, false)
  {
    hide ChatId;
    if rows != [] { StrictIsLenientPublic(rows[..|rows| - 1]); }
  }

  lemma {:induction false} StrictIsLenientAllowed(items: seq<Scalar>)
    ensures ParseAllowed(items, true).Some? ==> ParseAllowed(items, true) == ParseAllowed(items, false)
  {
    hide ChatId;
    if items != [] { StrictIsLenientAllowed(items[..|items| - 1]); }
  }

  // ---------------------------------------------------------------- writing and reading back

  lemma {:induction false} StripKeepsNumbers(s: string)
    requires s != "" && !IsSpace(s[0]) && !IsSpace(s[|s| - 1])
    ensures Strip(s) == s
  {
  }

  /** Every chat id survives its trip through a JSON key. */
  lemma CanonicalRoundTrip(n: int)
    ensures ChatId(Words(SignedDecimal(n))) == Some(n)
  {
    var s := SignedDecimal(n);
    var digits := if n < 0 then s[1..] else s;
    assert digits == Decimal(if n < 0 then -n else n);
    ValueOfDecimal(if n < 0 then -n else n);
    assert s[|s| - 1] == digits[|digits| - 1];
    StripKeepsNumbers(s);
  }

  /** The JSON member of one chat's flag. */
  function Entry(chat: int, public: map<int, bool>): (string, Scalar)
    requires chat in public
  {
    (SignedDecimal(chat), Flag(public[chat]))
  }

  ghost predicate IsEntry(e: (string, Scalar), public: map<int, bool>)
  {
    exists chat <- public.Keys :: e == Entry(chat, public)
  }

  /** `_save_state`'s payload, in whatever order the dictionary yields its keys. */
  ghost predicate Encodes(file: File, s: Settings)
  {
    && file.Members?
    && (forall e <- file.public :: IsEntry(e, s.public))
    && (forall chat <- s.public.Keys :: Entry(chat, s.public) in file.public)
    && (forall v <- file.allowed :: v.Number? && v.n in s.allowed)
    && (forall chat <- s.allowed :: Number(chat) in file.allowed)
  }

  lemma {:induction false} ParsePublicGood(entries: seq<(string, Scalar)>, public: map<int, bool>)
    requires forall e <- entries :: IsEntry(e, public)
    ensures var p := ParsePublic(entries, true);
            && p.Some? && (forall chat <- p.value.Keys :: chat in public && p.value[chat] == public[chat])
            && (forall chat <- public.Keys :: Entry(chat, public) in entries ==> chat in p.value)
  {
    hide ChatId, SignedDecimal;
    if entries != [] {
      var last := entries[|entries| - 1];
      assert IsEntry(last, public);
      var chat :| chat in public.Keys && last == Entry(chat, public);
      CanonicalRoundTrip(chat);
      var front := entries[..|entries| - 1];
      assert entries == front + [last] && forall e <- front :: e in entries;
      ParsePublicGood(front, public);
      forall other <- public.Keys | Entry(other, public) == last
        ensures other == chat
      {
        SignedDecimalInjective(other, chat);
      }
    }
  }

  lemma {:induction false} ParseAllowedGood(items: seq<Scalar>)
    requires forall v <- items :: v.Number?
    ensures var a := ParseAllowed(items, true);
            a.Some? && forall n: int :: n in a.value <==> Number(n) in items
  {
    if items != [] {
      var front, last := items[..|items| - 1], items[|items| - 1];
      assert items == front + [last] && last in items && last.Number?;
      assert forall v <- front :: v in items;
      ParseAllowedGood(front);
      assert ParseAllowed(items, true).value == ParseAllowed(front, true).value + {last.n};
      forall n: int ensures n in ParseAllowed(items, true).value <==> Number(n) in items
      {
        assert Number(n) in items <==> Number(n) in front || Number(n) == last;
      }
    }
  }

  /** What one process saves, any process reads. */
  lemma SaveReadRoundTrip(file: File, s: Settings)
    requires Encodes(file, s)
    ensures ReadState(file, true) == Some(s)
  {
    hide Entry, IsEntry, ParsePublic, ParseAllowed;
    ParsePublicGood(file.public, s.public);
    ParseAllowedGood(file.allowed);
    var public := ParsePublic(file.public, true).value;
    forall chat: int ensures chat in public <==> chat in s.public
    {
      if chat in s.public { assert chat in s.public.Keys && Entry(chat, s.public) in file.public; }
      if chat in public { assert chat in public.Keys; }
    }
    assert forall chat <- public.Keys :: public[chat] == s.public[chat];
    assert public == s.public;
    var allowed := ParseAllowed(file.allowed, true).value;
    forall n: int ensures n in allowed <==> n in s.allowed
    {
      if n in allowed { assert Number(n) in file.allowed; }
    }
    assert allowed == s.allowed;
  }

  /** Building the payload, one dictionary key at a time. */
  method Payload(s: Settings) returns (file: File)
    ensures Encodes(file, s)
  {
    hide SignedDecimal, Decimal;
    var public: seq<(string, Scalar)>, left := [], s.public.Keys;
    while exists chat :: chat in left
      invariant left <= s.public.Keys
      invariant forall e <- public :: IsEntry(e, s.public)
      invariant forall chat <- s.public.Keys - left :: Entry(chat, s.public) in public
      decreases left
    {
      var chat :| chat in left;
      assert IsEntry(Entry(chat, s.public), s.public);
      public, left := public + [Entry(chat, s.public)], left - {chat};
    }
    assert left == {};
    var allowed: seq<Scalar>, rest := [], s.allowed;
    while exists chat :: chat in rest
      invariant rest <= s.allowed
      invariant forall v <- allowed :: v.Number? && v.n in s.allowed
      invariant forall chat <- s.allowed - rest :: Number(chat) in allowed
      decreases rest
    {
      var chat :| chat in rest;
      allowed, rest := allowed + [Number(chat)], rest - {chat};
    }
    assert rest == {};
    file := Members(public, allowed);
  }

  // ---------------------------------------------------------------- transactions

  datatype Change = SetPublic(chat: int, value: bool) | Allow(chat: int) | Disallow(chat: int)

  /** The mutator callbacks: the changed settings, and whether any chat's right changed. */
  function Apply(c: Change, s: Settings): (r: (Settings, bool))
    ensures forall chat: int ::
              r.0.IsAllowed(chat) <==> if !c.SetPublic? && c.chat == chat then c.Allow? else s.IsAllowed(chat)
    ensures forall chat: int ::
              r.0.IsPublic(chat) <==> if c.SetPublic? && c.chat == chat then c.value else s.IsPublic(chat)
    ensures r.1 <==> s.IsAllowed(c.chat) != r.0.IsAllowed(c.chat) || s.IsPublic(c.chat) != r.0.IsPublic(c.chat)
    ensures !r.1 ==> r.0 == s
  {
    match c
    case SetPublic(chat, value) =>
      if s.IsPublic(chat) == value then (s, false) else (s.(public := s.public[chat := value]), true)
    case Allow(chat) => if chat in s.allowed then (s, false) else (s.(allowed := s.allowed + {chat}), true)
    case Disallow(chat) => (s.(allowed := s.allowed - {chat}), chat in s.allowed)
  }

  /** `deny_on_precommit_failure`. */
  predicate Denies(c: Change) { c.Disallow? || (c.SetPublic? && !c.value) }

  /** The denial a change asks for. */
  predicate Denied(c: Change, s: Settings)
  {
    (c.Disallow? ==> !s.IsAllowed(c.chat)) && (c.SetPublic? && !c.value ==> !s.IsPublic(c.chat))
  }

  /** Every right in `s` is also in `t` or in `u`. */
  predicate NoMoreThan(s: Settings, t: Settings, u: Settings)
  {
    && (forall chat <- s.allowed :: chat in t.allowed || chat in u.allowed)
    && (forall chat <- s.public.Keys :: s.public[chat] ==> t.IsPublic(chat) || u.IsPublic(chat))
  }

  lemma SavedIsThere(file: File, s: Settings)
    requires Encodes(file, s)
    ensures file != Missing
  {
  }

  /** What fails in one call: taking or releasing the lock, reading, saving, or the check of the directory. */
  datatype Faults = Faults(lock: bool, read: bool, save: bool, sync: bool, unlock: bool)

  const NO_FAULTS := Faults(false, false, false, false, false)

  datatype Result = Returned(changed: bool) | Raised(durabilityOnly: bool)

  /** The settings file, shared by every process. */
  class Disk {
    var file: File
    constructor (file: File) ensures this.file == file { this.file := file; }
  }

  /** One process's settings object. */
  class ChatSettings {
    const disk: Disk
    var memory: Settings

    /** Construction reads leniently; what any process saved it reads back. */
    constructor (disk: Disk)
      ensures this.disk == disk && Holds(disk.file, memory)
      ensures forall s :: Encodes(disk.file, s) ==> memory == s
    {
      ReadingKeeps(disk.file);
      forall s | Encodes(disk.file, s) ensures ReadState(disk.file, false) == Some(s) { SaveReadRoundTrip(disk.file, s); }
      hide Encodes, ReadState, Holds;
      this.disk := disk;
      memory := ReadState(disk.file, false).value;
    }

    /** The transaction under the file lock: the candidate is saved and published, or nothing reaches the disk. */
    method Locked(c: Change, faults: Faults) returns (r: Result, onDisk: Option<Settings>, candidate: Option<Settings>)
      modifies this`memory, disk`file
      ensures onDisk == if faults.read then None else ReadState(old(disk.file), true)
      ensures candidate == if onDisk.None? then None else Some(Apply(c, onDisk.value).0)
      ensures if candidate.Some? && Apply(c, onDisk.value).1 && !faults.save then Encodes(disk.file, candidate.value)
              else disk.file == old(disk.file)
      ensures candidate.None? ==> r == Raised(false) && memory == old(memory)
      ensures candidate.Some? && Apply(c, onDisk.value).1 && faults.save ==> r == Raised(false)
      ensures candidate.Some? && !(Apply(c, onDisk.value).1 && faults.save) ==>
                && memory == candidate.value && ReadState(disk.file, true) == candidate
                && r == if faults.sync && disk.file != Missing then Raised(true) else Returned(Apply(c, onDisk.value).1)
    {
      hide Encodes;
      onDisk, candidate := None, None;
      var read := ReadState(disk.file, true);
      if faults.read || read.None? { return Raised(false), onDisk, candidate; }
      onDisk := read;
      var (next, changed) := Apply(c, read.value);
      candidate := Some(next);
      if !changed {
        memory := read.value;
        if faults.sync && disk.file != Missing { return Raised(true), onDisk, candidate; }
        return Returned(false), onDisk, candidate;
      }
      if faults.save { return Raised(false), onDisk, candidate; }
      disk.file := Payload(next);
      SavedIsThere(disk.file, next);
      SaveReadRoundTrip(disk.file, next);
      memory := next;
      r := if faults.sync then Raised(true) else Returned(true);
    }

    /** What a call goes by: the file, or its own copy where it does not get to read that. */
    ghost function Basis(faults: Faults): Settings
      reads this`memory, disk`file
    {
      if faults.lock || faults.read
          || ReadState(disk.file, true).None? then memory else ReadState(disk.file, true).value
    }

    /** The call gets to read the file. */
    ghost predicate Reads(faults: Faults)
      reads disk`file
    {
      !faults.lock && !faults.read && ReadState(disk.file, true).Some?
    }

    /**
     `_mutate`.  The file changes by exactly this change, if it can be read and saved.  A call
     returns exactly when it could read and nothing that it needs failed, and then memory is the
     file.  Otherwise a denial still holds in this process, and a grant that failed leaves what was
     read, or what was there.
     */
    method Mutate(c: Change, faults: Faults) returns (r: Result)
      modifies this`memory, disk`file
      ensures ReadState(disk.file, true)
              == if old(Reads(faults)) && !(faults.save && Apply(c, old(Basis(faults))).1)
                 then Some(Apply(c, old(Basis(faults))).0) else ReadState(old(disk.file), true)
      ensures disk.file != old(disk.file) ==> old(Reads(faults)) && !faults.save && Apply(c, old(Basis(faults))).1
      ensures faults == NO_FAULTS && ReadState(old(disk.file), true).Some? ==> r.Returned?
      ensures r.Returned? <==>
              && old(Reads(faults)) && !faults.unlock && !(faults.save && Apply(c, old(Basis(faults))).1)
              && !(faults.sync && disk.file != Missing)
      ensures r.Returned? || r == Raised(true) ==> ReadState(disk.file, true) == Some(memory)
      ensures r.Returned? ==> r.changed == Apply(c, old(Basis(faults))).1
      ensures r == Raised(true) ==> old(Reads(faults)) && memory == Apply(c, old(Basis(faults))).0
      ensures r == Raised(false) ==> memory == if Denies(c) then Apply(c, old(Basis(faults))).0 else old(Basis(faults))
      ensures Denied(c, memory)
      ensures ReadState(disk.file, true).Some? ==> NoMoreThan(memory, old(memory), ReadState(disk.file, true).value)
      ensures ReadState(disk.file, true).None? ==> NoMoreThan(memory, old(memory), EMPTY)
    {
      hide ReadState, Encodes;
      var fallback := Apply(c, memory).0;
      var onDisk: Option<Settings>, candidate: Option<Settings> := None, None;
      r := Raised(false);
      ghost var before := disk.file;
      if !faults.lock {
        r, onDisk, candidate := Locked(c, faults);
        if candidate.Some? && Apply(c, onDisk.value).1
            && !faults.save { SaveReadRoundTrip(disk.file, candidate.value); }
        if faults.unlock { r := Raised(false); }
      }
      if r == Raised(false) {
        if Denies(c) {
          memory := if candidate.Some? then candidate.value else fallback;
        } else if onDisk.Some? {
          memory := onDisk.value;
        }
      }
    }

    method SetPublic(chat: int, value: bool, faults: Faults) returns (r: Result)
      modifies this`memory, disk`file
      ensures faults == NO_FAULTS && ReadState(old(disk.file), true).Some? ==> r.Returned?
      ensures !value ==> !memory.IsPublic(chat)
      ensures r.Returned? ==> memory.IsPublic(chat) == value && ReadState(disk.file, true) == Some(memory)
      ensures r.Returned? ==> ReadState(old(disk.file), true).Some?
                              && (memory, r.changed) == Apply(Change.SetPublic(chat, value), ReadState(old(disk.file), true).value)
      ensures disk.file != old(disk.file) ==>
                && ReadState(old(disk.file), true).Some?
                && ReadState(disk.file, true) == Some(Apply(Change.SetPublic(chat, value), ReadState(old(disk.file), true).value).0)
    {
      r := Mutate(Change.SetPublic(chat, value), faults);
    }

    method Allow(chat: int, faults: Faults) returns (r: Result)
      modifies this`memory, disk`file
      ensures faults == NO_FAULTS && ReadState(old(disk.file), true).Some? ==> r.Returned?
      ensures r.Returned? ==> memory.IsAllowed(chat) && ReadState(disk.file, true) == Some(memory)
      ensures r.Returned? ==> ReadState(old(disk.file), true).Some?
                              && (memory, r.changed) == Apply(Change.Allow(chat), ReadState(old(disk.file), true).value)
      ensures disk.file != old(disk.file) ==>
                && ReadState(old(disk.file), true).Some?
                && ReadState(disk.file, true) == Some(Apply(Change.Allow(chat), ReadState(old(disk.file), true).value).0)
    {
      r := Mutate(Change.Allow(chat), faults);
    }

    method Disallow(chat: int, faults: Faults) returns (r: Result)
      modifies this`memory, disk`file
      ensures faults == NO_FAULTS && ReadState(old(disk.file), true).Some? ==> r.Returned?
      ensures !memory.IsAllowed(chat)
      ensures r.Returned? ==> ReadState(disk.file, true) == Some(memory)
      ensures r.Returned? ==> ReadState(old(disk.file), true).Some?
                              && (memory, r.changed) == Apply(Change.Disallow(chat), ReadState(old(disk.file), true).value)
      ensures disk.file != old(disk.file) ==>
                && ReadState(old(disk.file), true).Some?
                && ReadState(disk.file, true) == Some(Apply(Change.Disallow(chat), ReadState(old(disk.file), true).value).0)
    {
      r := Mutate(Change.Disallow(chat), faults);
    }
  }

  // ---------------------------------------------------------------- many writers

  /** The settings after the committed ones among `changes`, in order. */
  function Replay(start: Settings, changes: seq<Change>, committed: seq<bool>): Settings
    requires |changes| == |committed|
  {
    if changes == [] then start
    else
      var n := |changes| - 1;
      var before := Replay(start, changes[..n], committed[..n]);
      if committed[n] then Apply(changes[n], before).0 else before
  }

  /** Authorisation follows the last committed word about a chat. */
  lemma {:induction false} LastWordDecides(start: Settings, changes: seq<Change>, committed: seq<bool>, chat: int)
    requires |changes| == |committed|
    ensures var last := LastWord(changes, committed, chat);
            Replay(start, changes, committed).IsAllowed(chat)
            <==> if last.None? then start.IsAllowed(chat) else changes[last.value].Allow?
  {
    if changes != [] { LastWordDecides(start, changes[..|changes| - 1], committed[..|changes| - 1], chat); }
  }

  /** The last committed `Allow` or `Disallow` naming a chat. */
  function LastWord(changes: seq<Change>, committed: seq<bool>, chat: int): (r: Option<nat>)
    requires |changes| == |committed|
    ensures r.Some? ==> r.value < |changes| && committed[r.value] && Speaks(changes[r.value], chat)
    ensures forall k :: (if r.None? then 0 else r.value + 1) <= k < |changes| && committed[k] ==> !Speaks(changes[k], chat)
  {
    if changes == [] then None
    else
      var n := |changes| - 1;
      if committed[n] && Speaks(changes[n], chat) then Some(n) else LastWord(changes[..n], committed[..n], chat)
  }

  predicate Speaks(c: Change, chat: int) { !c.SetPublic? && c.chat == chat }

  /** The same for the public flag: its last committed setting decides. */
  lemma {:induction false} LastSettingDecides(start: Settings, changes: seq<Change>, committed: seq<bool>, chat: int)
    requires |changes| == |committed|
    ensures var last := LastSetting(changes, committed, chat);
            Replay(start, changes, committed).IsPublic(chat)
            <==> if last.None? then start.IsPublic(chat) else changes[last.value].value
  {
    if changes != [] { LastSettingDecides(start, changes[..|changes| - 1], committed[..|changes| - 1], chat); }
  }

  /** The last committed `SetPublic` naming a chat. */
  function LastSetting(changes: seq<Change>, committed: seq<bool>, chat: int): (r: Option<nat>)
    requires |changes| == |committed|
    ensures r.Some? ==> r.value < |changes| && committed[r.value] && changes[r.value].SetPublic? && changes[r.value].chat == chat
    ensures forall k :: (if r.None? then 0 else r.value + 1) <= k < |changes| && committed[k] ==>
                          !(changes[k].SetPublic? && changes[k].chat == chat)
  {
    if changes == [] then None
    else
      var n := |changes| - 1;
      if committed[n] && changes[n].SetPublic? && changes[n].chat == chat then Some(n)
      else LastSetting(changes[..n], committed[..n], chat)
  }

  /**
   Any number of processes changing one file in any order, with any failures: the file is the
   replay of the committed changes, every change whose call returned or only missed its
   durability check is among them, and every process still denies what its own last call denied.
   */
  method ConcurrentWriters(disk: Disk, processes: seq<ChatSettings>, turns: seq<nat>, changes: seq<Change>)
      returns (results: seq<Result>, ghost committed: seq<bool>)
    requires |turns| == |changes| && forall k :: 0 <= k < |turns| ==> turns[k] < |processes|
    requires forall p <- processes :: p.disk == disk
    requires forall i, j :: 0 <= i < j < |processes| ==> processes[i] != processes[j]
    requires ReadState(disk.file, true).Some?
    modifies disk`file, processes
    ensures |results| == |committed| == |changes|
    ensures ReadState(disk.file, true) == Some(Replay(ReadState(old(disk.file), true).value, changes, committed))
    ensures forall k :: 0 <= k < |changes| && results[k] != Raised(false) ==> committed[k]
    ensures forall k :: 0 <= k < |changes| && (forall j :: k < j < |changes| ==> turns[j] != turns[k])
              ==> Denied(changes[k], processes[turns[k]].memory)
  {
    results, committed := [], [];
    for n := 0 to |changes|
      invariant |results| == |committed| == n
      invariant ReadState(disk.file, true)
          == Some(Replay(ReadState(old(disk.file), true).value, changes[..n], committed))
      invariant forall k :: 0 <= k < n && results[k] != Raised(false) ==> committed[k]
      invariant forall k :: 0 <= k < n && (forall j :: k < j < n ==> turns[j] != turns[k])
                  ==> Denied(changes[k], processes[turns[k]].memory)
    {
      ghost var before := disk.file;
      var faults: Faults := *;
      var r := processes[turns[n]].Mutate(changes[n], faults);
      results := results + [r];
      committed := committed + [r != Raised(false) || disk.file != before];
      assert changes[..n + 1][..n] == changes[..n] && committed[..n] == committed[..n][..n];
    }
    assert changes[..|changes|] == changes;
  }
}
