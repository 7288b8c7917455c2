/** The reply index: tracked replies, single-flight claims, edit tokens, and saves that coalesce. */
module ReplyIndex {
  import opened Text
  import opened ReplySchema

  datatype Role = Producer | Waiter | Done

  /** A claim on translating a post; events are numbered. */
  datatype Claim = Claim(key: Key, event: Option<nat>, role: Role)

  datatype Token = Token(number: int, expires: real)

  /** How a write ends; a cancelled one may still land, before any later one starts. */
  datatype WriteEnd = Written | DurabilityUncertain | WriteFailed | Cancelled(landed: bool)

  /** The file shows what was written, whether or not anybody learns of it. */
  predicate Reaches(e: WriteEnd) { e.Written? || e.DurabilityUncertain? || (e.Cancelled? && e.landed) }

  /** `get_many`'s answer. */
  function Answer(entries: map<Key, Entry>, k: Key, now: real): seq<int>
  {
    if k in entries && now < entries[k].expires then entries[k].replies else []
  }

  /** What is left of a snapshot after entries expired by `latest` were dropped without a save. */
  ghost predicate Covers(snapshot: map<Key, Entry>, entries: map<Key, Entry>, latest: real)
  {
    && (forall k <- entries.Keys :: k in snapshot && snapshot[k] == entries[k])
    && (forall k <- snapshot.Keys :: k !in entries ==> snapshot[k].expires <= latest)
  }

  /** Trimming order: earlier expiry first, then chat, then message. */
  predicate Older(a: Key, x: real, b: Key, y: real)
  {
    x < y || (x == y && (a.chat < b.chat || (a.chat == b.chat && a.message <= b.message)))
  }

  lemma {:induction false} OldestExists(keys: set<Key>, expiry: map<Key, real>)
    requires keys != {} && keys <= expiry.Keys
    ensures exists k <- keys :: IsOldest(keys, expiry, k)
    decreases keys
  {
    var k :| k in keys;
    var rest := keys - {k};
    if rest == {} {
      assert keys == {k};
      assert IsOldest(keys, expiry, k);
    } else {
      OldestExists(rest, expiry);
      var m :| m in rest && IsOldest(rest, expiry, m);
      assert keys == rest + {k};
      var best := if Older(k, expiry[k], m, expiry[m]) then k else m;
      assert IsOldest(keys, expiry, best);
    }
  }

  predicate IsOldest(keys: set<Key>, expiry: map<Key, real>, k: Key)
    requires keys <= expiry.Keys
  {
    k in keys && forall o <- keys :: Older(k, expiry[k], o, expiry[o])
  }

  /** The entries not yet expired. */
  function Alive(entries: map<Key, Entry>, now: real): map<Key, Entry>
  {
    map k <- entries.Keys | entries[k].expires > now :: entries[k]
  }

  function ExpiryOf(entries: map<Key, Entry>): map<Key, real>
  {
    map k <- entries.Keys :: entries[k].expires
  }

  /** Trimming keeps entries as they are, drops what is expired, and drops living ones only at the cap, oldest first. */
  ghost predicate Trimmed(before: map<Key, Entry>, after: map<Key, Entry>, now: real, most: nat)
  {
    && (forall k :: k in after ==> k in before && after[k] == before[k] && after[k].expires > now)
    && |after| <= most
    && (forall k :: k in before && k !in after && before[k].expires > now ==>
          |after| == most && forall o :: o in after ==> Older(k, before[k].expires, o, after[o].expires))
  }

  /** Trimming sightings: likewise, by their expiry times. */
  ghost predicate TimesTrimmed(before: map<Key, real>, after: map<Key, real>, now: real, most: nat)
  {
    && (forall k :: k in after ==> k in before && after[k] == before[k] > now)
    && |after| <= most
    && (forall k :: k in before && k !in after && before[k] > now ==>
          |after| == most && forall o :: o in after ==> Older(k, before[k], o, after[o]))
  }

  function AliveTimes(times: map<Key, real>, now: real): map<Key, real>
  {
    map k <- times.Keys | times[k] > now :: times[k]
  }

  lemma TimesTrimmedIs(before: map<Key, real>, kept: set<Key>, now: real, most: nat)
    requires var alive := AliveTimes(before, now);
             && kept <= alive.Keys && |kept| == (if |alive| < most then |alive| else most)
             && forall d <- alive.Keys - kept :: forall k <- kept :: Older(d, alive[d], k, alive[k])
    ensures TimesTrimmed(before, Restrict(AliveTimes(before, now), kept), now, most)
  {
    var alive := AliveTimes(before, now);
    var after := Restrict(alive, kept);
    assert after.Keys == kept && |after.Keys| == |after| && |alive.Keys| == |alive|;
    forall d | d in before && d !in after && before[d] > now
      ensures |after| == most && forall o :: o in after ==> Older(d, before[d], o, after[o])
    {
      assert d in alive.Keys - kept;
      SmallerKept(kept, alive.Keys, d);
    }
  }

  lemma TrimmedIs(before: map<Key, Entry>, alive: map<Key, Entry>, after: map<Key, Entry>, kept: set<Key>, now: real,
          most: nat)
    requires alive == Alive(before, now) && kept <= alive.Keys && after == Restrict(alive, kept)
    requires |kept| == if |ExpiryOf(alive)| < most then |ExpiryOf(alive)| else most
    requires forall d <- ExpiryOf(alive).Keys - kept :: forall k <- kept :: Older(d, ExpiryOf(alive)[d], k, ExpiryOf(alive)[k])
    ensures Trimmed(before, after, now, most) && after.Keys == kept && (after.Keys == before.Keys <==> after == before)
  {
    assert after.Keys == kept && |after.Keys| == |after|;
    assert ExpiryOf(alive).Keys == alive.Keys && |ExpiryOf(alive).Keys| == |ExpiryOf(alive)|;
    forall k | k in before && k !in after && before[k].expires > now
      ensures |after| == most && forall o :: o in after ==> Older(k, before[k].expires, o, after[o].expires)
    {
      assert k in alive && k in ExpiryOf(alive).Keys - kept;
      SmallerKept(kept, ExpiryOf(alive).Keys, k);
    }
  }

  lemma ExpiryKeys(entries: map<Key, Entry>)
    ensures ExpiryOf(entries).Keys == entries.Keys
  {
  }

  lemma SoundKept(before: map<Key, Entry>, after: map<Key, Entry>, now: real, most: nat)
    requires Sound(before) && Trimmed(before, after, now, most) && most >= 1
    ensures EntriesGood(after, most)
  {
    forall k <- after.Keys ensures after[k].replies != [] { assert k in before.Keys; }
  }

  lemma SmallerKept(kept: set<Key>, keys: set<Key>, k: Key)
    requires kept <= keys && k in keys && k !in kept
    ensures |kept| < |keys|
  {
    SubsetSize(kept, keys - {k});
  }

  /** The keys to keep: dropping the oldest until at most `most` are left. */
  method DropOldest(expiry: map<Key, real>, most: nat) returns (kept: set<Key>)
    ensures kept <= expiry.Keys && |kept| == if |expiry| < most then |expiry| else most
    ensures forall d <- expiry.Keys - kept :: forall k <- kept :: Older(d, expiry[d], k, expiry[k])
  {
    kept := expiry.Keys;
    assert |expiry.Keys| == |expiry|;
    while |kept| > most
      invariant kept <= expiry.Keys && |kept| >= (if |expiry| < most then |expiry| else most)
      invariant forall d <- expiry.Keys - kept :: forall k <- kept :: Older(d, expiry[d], k, expiry[k])
      decreases |kept|
    {
      OldestExists(kept, expiry);
      var k :| k in kept && IsOldest(kept, expiry, k);
      ghost var before := kept;
      kept := kept - {k};
      forall d <- expiry.Keys - kept, o <- kept ensures Older(d, expiry[d], o, expiry[o])
      {
        assert d == k || d in expiry.Keys - before;
      }
    }
  }

  function Restrict<V>(m: map<Key, V>, keys: set<Key>): (r: map<Key, V>)
    ensures r.Keys == m.Keys * keys
  {
    map k <- m.Keys | k in keys :: m[k]
  }

  // ---------------------------------------------------------------- what holds of the index's parts

  ghost predicate EntriesGood(entries: map<Key, Entry>, most: nat) { 1 <= most && |entries| <= most && Sound(entries) }

  /** Every post in flight has one unfinished producer, whose event nobody has set yet. */
  ghost predicate ClaimsGood(inFlight: map<Key, nat>, nextEvent: nat, raised: set<nat>, unfinished: set<Claim>)
  {
    && (forall c <- unfinished :: c.role == Producer && c.key in inFlight && c.event == Some(inFlight[c.key]))
    && (forall k <- inFlight.Keys :: Claim(k, Some(inFlight[k]), Producer) in unfinished)
    && (forall k <- inFlight.Keys :: inFlight[k] < nextEvent && inFlight[k] !in raised)
    && (forall e <- raised :: e < nextEvent)
    && (forall j, k :: j in inFlight && k in inFlight && j != k ==> inFlight[j] != inFlight[k])
  }

  lemma ClaimStarted(inFlight: map<Key, nat>, nextEvent: nat, raised: set<nat>, unfinished: set<Claim>, k: Key)
    requires ClaimsGood(inFlight, nextEvent, raised, unfinished) && k !in inFlight
    ensures ClaimsGood(inFlight[k := nextEvent], nextEvent + 1, raised, unfinished + {Claim(k, Some(nextEvent), Producer)})
    ensures forall d <- unfinished :: d.key != k
  {
  }

  lemma ProducersOnly(inFlight: map<Key, nat>, nextEvent: nat, raised: set<nat>, unfinished: set<Claim>, c: Claim)
    requires ClaimsGood(inFlight, nextEvent, raised, unfinished) && c in unfinished
    ensures c.role == Producer && c.event.Some?
  {
  }

  lemma ClaimFinished(inFlight: map<Key, nat>, nextEvent: nat, raised: set<nat>, unfinished: set<Claim>, c: Claim)
    requires ClaimsGood(inFlight, nextEvent, raised, unfinished) && c.role == Producer && c.event.Some?
    requires c in unfinished || c.event.value in raised
    ensures ClaimsGood(if c.key in inFlight && inFlight[c.key] == c.event.value then inFlight - {c.key} else inFlight,
                       nextEvent, raised + {c.event.value}, unfinished - {c})
    ensures c in unfinished ==> c.key in inFlight && inFlight[c.key] == c.event.value
  {
  }

  /** A held token is the largest registered for its post since the post's token was first held. */
  ghost predicate TokensGood(tokens: map<Key, Token>, registered: map<Key, set<int>>, nextToken: int)
  {
    && registered.Keys == tokens.Keys
    && (forall k <- tokens.Keys :: tokens[k].number in registered[k] && tokens[k].number <= nextToken)
    && (forall k <- tokens.Keys :: forall t <- registered[k] :: t <= tokens[k].number)
  }

  lemma TokensRestricted(tokens: map<Key, Token>, registered: map<Key, set<int>>, nextToken: int, keys: set<Key>)
    requires TokensGood(tokens, registered, nextToken)
    ensures TokensGood(Restrict(tokens, keys), Restrict(registered, keys), nextToken)
  {
  }

  function Raise(tokens: map<Key, Token>, k: Key, token: int, expires: real): map<Key, Token>
  {
    if k !in tokens || token > tokens[k].number then tokens[k := Token(token, expires)] else tokens
  }

  function Register(registered: map<Key, set<int>>, k: Key, token: int): map<Key, set<int>>
  {
    registered[k := (if k in registered then registered[k] else {}) + {token}]
  }

  function TokenTimes(tokens: map<Key, Token>): map<Key, real>
  {
    map k <- tokens.Keys :: tokens[k].expires
  }

  /** Pruning leaves living tokens only, and all of them while there is room. */
  lemma TokensPruned(before: map<Key, Token>, after: map<Key, Token>, k: Key, now: real, most: nat)
    requires TimesTrimmed(TokenTimes(before), TokenTimes(after), now, most) && after.Keys <= before.Keys
    ensures k in after ==> now < after[k].expires
    ensures k in before && now < before[k].expires && |before| <= most ==> k in after
  {
    assert TokenTimes(before).Keys == before.Keys && TokenTimes(after).Keys == after.Keys;
    assert |after.Keys| == |after| && |before.Keys| == |before| && |TokenTimes(after).Keys| == |TokenTimes(after)|;
    if k in after { assert k in TokenTimes(after); }
    if k in before && k !in after && now < before[k].expires { SmallerKept(after.Keys, before.Keys, k); }
  }

  lemma TimesRestricted(tokens: map<Key, Token>, kept: set<Key>, now: real)
    requires kept <= AliveTimes(TokenTimes(tokens), now).Keys
    ensures TokenTimes(Restrict(tokens, kept)) == Restrict(AliveTimes(TokenTimes(tokens), now), kept)
    ensures Restrict(tokens, kept).Keys == kept
  {
  }

  lemma TokenHeld(tokens: map<Key, Token>, registered: map<Key, set<int>>, nextToken: int, k: Key)
    requires TokensGood(tokens, registered, nextToken)
    ensures k in tokens <==> k in registered
    ensures k in tokens ==> tokens[k].number in registered[k] && tokens[k].number <= nextToken
    ensures k in tokens ==> forall t <- registered[k] :: t <= tokens[k].number
  {
    assert k in tokens ==> k in tokens.Keys;
  }

  lemma TokenRaised(tokens: map<Key, Token>, registered: map<Key, set<int>>, before: int, after: int, k: Key,
          token: int, expires: real)
    requires TokensGood(tokens, registered, before) && before <= after && token <= after
    ensures TokensGood(Raise(tokens, k, token, expires), Register(registered, k, token), after)
  {
  }

  lemma RestrictedAt<V>(m: map<Key, V>, keys: set<Key>, k: Key)
    ensures k in Restrict(m, keys) <==> k in m && k in keys
    ensures k in Restrict(m, keys) ==> Restrict(m, keys)[k] == m[k]
  {
  }

  lemma TokenRegistered(tokens: map<Key, Token>, registered: map<Key, set<int>>, k: Key, token: int, expires: real)
    ensures var raised, all := Raise(tokens, k, token, expires), Register(registered, k, token);
            && k in raised && k in all && all[k] == (if k in registered then registered[k] else {}) + {token}
            && token <= raised[k].number
            && (raised[k] == Token(token, expires) || (k in tokens && raised[k] == tokens[k]))
  {
  }

  /** The newest snapshot is waiting, being written, or, if the last write landed, on disk. */
  ghost predicate SaverGood(entries: map<Key, Entry>, pending: Option<Payload>, writing: Option<Payload>, saving: bool,
                            disk: Option<Payload>, snapshot: Option<map<Key, Entry>>, landed: bool, latest: real)
  {
    && (snapshot.Some? ==> Sound(snapshot.value) && Covers(snapshot.value, entries, latest))
    && (pending.Some? ==> snapshot.Some? && Encodes(pending.value, snapshot.value))
    && (pending.None? && writing.Some? ==> snapshot.Some? && Encodes(writing.value, snapshot.value))
    && (pending.None? && writing.None? && landed ==> snapshot.Some? && disk.Some? && Encodes(disk.value, snapshot.value))
    && (writing.Some? ==> saving)
  }

  /** Dropping an expired entry needs no save. */
  lemma ExpiredDropped(entries: map<Key, Entry>, snapshot: map<Key, Entry>, k: Key, now: real, before: real,
          after: real)
    requires Covers(snapshot, entries, before) && k in entries && entries[k].expires <= now
    requires before <= after && now <= after
    ensures Covers(snapshot, entries - {k}, after)
  {
  }

  lemma AnswersAfterDrop(entries: map<Key, Entry>, k: Key, now: real)
    requires k in entries && entries[k].expires <= now
    ensures forall o, t :: t >= now ==> Answer(entries - {k}, o, t) == Answer(entries, o, t)
  {
  }

  lemma EntriesDropped(entries: map<Key, Entry>, k: Key, most: nat)
    requires EntriesGood(entries, most)
    ensures EntriesGood(entries - {k}, most)
  {
    Smaller(entries, k);
  }

  lemma SoundWith(entries: map<Key, Entry>, k: Key, e: Entry)
    requires Sound(entries) && e.replies != []
    ensures Sound(entries[k := e])
  {
    assert forall o <- entries.Keys :: entries[o].replies != [];
  }

  lemma RepliesThere(entries: map<Key, Entry>, k: Key, most: nat)
    requires EntriesGood(entries, most) && k in entries
    ensures entries[k].replies != []
  {
    assert k in entries.Keys;
  }

  lemma GoodIsSound(entries: map<Key, Entry>, most: nat)
    requires EntriesGood(entries, most)
    ensures Sound(entries) && most >= 1
  {
  }

  lemma NothingStarted()
    ensures ClaimsGood(map[], 0, {}, {}) && TokensGood(map[], map[], 0)
  {
  }

  lemma SnapshotTaken(entries: map<Key, Entry>, latest: real)
    ensures Covers(entries, entries, latest)
  {
  }

  class ReplyIndex {
    const ttl: real
    const maxEntries: nat
    var entries: map<Key, Entry>
    var observed: map<Key, real>
    var inFlight: map<Key, nat>
    var tokens: map<Key, Token>
    var nextToken: int
    /** Events are numbered as they are made; these are set. */
    var nextEvent: nat
    var raised: set<nat>
    /** The saver: a snapshot waiting, one being written, whether its task runs, and the file. */
    var pending: Option<Payload>
    var writing: Option<Payload>
    var saving: bool
    var disk: Option<Payload>
    /** The producers that have not finished, and the edit tokens registered since a post's token was first held. */
    ghost var unfinished: set<Claim>
    ghost var registered: map<Key, set<int>>
    /** The entries last saved, whether the last write to end is on disk, and the latest unsaved drop. */
    ghost var snapshot: Option<map<Key, Entry>>
    ghost var landed: bool
    ghost var latest: real

    ghost predicate ClaimsOk()
      reads `inFlight, `nextEvent, `raised, `unfinished
    {
      ClaimsGood(inFlight, nextEvent, raised, unfinished)
    }

    ghost predicate TokensOk()
      reads `tokens, `registered, `nextToken
    {
      TokensGood(tokens, registered, nextToken)
    }

    ghost predicate SaverOk()
      reads `entries, `pending, `writing, `saving, `disk, `snapshot, `landed, `latest
    {
      SaverGood(entries, pending, writing, saving, disk, snapshot, landed, latest)
    }

    ghost predicate Valid()
      reads this
    {
      EntriesGood(entries, maxEntries) && ClaimsOk() && TokensOk() && SaverOk()
    }

    lemma WriterIsSaver()
      requires SaverOk()
      ensures writing.Some? ==> saving
    {
    }

    /** Start-up: whatever rows of the file are readable and alive, trimmed to size. */
    constructor (ttl: real, maxEntries: nat, disk: Option<Payload>, now: real, saved: WriteEnd)
      requires maxEntries >= 1
      ensures Valid() && this.ttl == ttl && this.maxEntries == maxEntries && unfinished == {}
      ensures Trimmed(FromFile(disk, now), entries, now, maxEntries)
      ensures |FromFile(disk, now)| <= maxEntries ==> entries == FromFile(disk, now)
    {
      hide FromFile, Trimmed, ClaimsGood, TokensGood, Sound, Covers, Encodes, Restrict, Alive, EntriesGood;
      this.ttl, this.maxEntries := ttl, maxEntries;
      entries, observed, inFlight, tokens, nextToken := FromFile(disk, now), map[], map[], map[], 0;
      nextEvent, raised := 0, {};
      pending, writing, saving, this.disk := None, None, false, disk;
      unfinished, registered, snapshot, landed, latest := {}, map[], None, false, now;
      new;
      FromFileSound(disk, now);
      NothingStarted();
      var changed := TrimEntries(now);
      if |FromFile(disk, now)| <= maxEntries { NothingTrimmed(FromFile(disk, now), entries, now, maxEntries); }
      if changed {
        GoodIsSound(entries, maxEntries);
        SaveInline(saved);
      }
    }

    // ---------------------------------------------------------------- entries

    /** `_forget_key` without a save. */
    method ForgetKey(k: Key)
      requires TokensOk()
      modifies `entries, `observed, `tokens, `registered
      ensures TokensOk()
      ensures entries == old(entries) - {k} && observed == old(observed) - {k}
      ensures tokens == old(tokens) - {k} && registered == old(registered) - {k}
    {
      entries, observed := entries - {k}, observed - {k};
      tokens, registered := tokens - {k}, registered - {k};
    }

    /** The first half of `_trim_entries`. */
    method DropExpired(now: real) returns (ghost gone: set<Key>)
      requires TokensOk()
      modifies `entries, `observed, `tokens, `registered
      ensures TokensOk() && entries == Alive(old(entries), now)
      ensures gone <= old(entries).Keys && entries.Keys == old(entries).Keys - gone && observed == old(observed) - gone
      ensures tokens == old(tokens) - gone && registered == old(registered) - gone
    {
      hide TokensGood, Alive;
      gone := {};
      NothingDropped(entries);
      NothingDropped(observed);
      NothingDropped(tokens);
      NothingDropped(registered);
      while exists k :: k in entries && entries[k].expires <= now
        invariant TokensOk() && entries == old(entries) - gone
        invariant tokens == old(tokens) - gone && registered == old(registered) - gone
            && observed == old(observed) - gone
        invariant forall k <- gone :: k in old(entries) && old(entries)[k].expires <= now
        decreases |entries|
      {
        var k :| k in entries && entries[k].expires <= now;
        Smaller(entries, k);
        DroppedToo(old(entries), gone, k);
        DroppedToo(old(observed), gone, k);
        DroppedToo(old(tokens), gone, k);
        DroppedToo(old(registered), gone, k);
        ForgetKey(k);
        gone := gone + {k};
      }
      AliveIs(old(entries), gone, now);
    }

    /** `_trim_entries`: expired entries go, then the oldest beyond the cap, and edit tokens without an entry. */
    method TrimEntries(now: real) returns (changed: bool)
      requires maxEntries >= 1 && Sound(entries) && TokensOk()
      modifies `entries, `observed, `tokens, `registered
      ensures EntriesGood(entries, maxEntries) && TokensOk()
      ensures tokens == Restrict(old(tokens), entries.Keys) && registered == Restrict(old(registered), entries.Keys)
      ensures observed == StillSeen(old(observed), old(entries), entries)
      ensures changed <==> entries != old(entries)
      ensures Trimmed(old(entries), entries, now, maxEntries)
    {
      hide Trimmed, Alive, ExpiryOf, TokensGood, Sound, Restrict, Older, EntriesGood;
      ghost var before := entries;
      var keysBefore := entries.Keys;
      ghost var gone := DropExpired(now);
      ghost var alive := entries;
      var kept := DropOldest(ExpiryOf(entries), maxEntries);
      ExpiryKeys(alive);
      observed := observed - (entries.Keys - kept);
      entries := Restrict(entries, kept);
      DroppedTwice(old(observed), old(entries).Keys, gone, entries.Keys);
      TokensRestricted(tokens, registered, nextToken, entries.Keys);
      RestrictTwice(old(tokens), tokens, gone, entries.Keys);
      RestrictTwice(old(registered), registered, gone, entries.Keys);
      tokens, registered := Restrict(tokens, entries.Keys), Restrict(registered, entries.Keys);
      TrimmedIs(before, alive, entries, kept, now, maxEntries);
      SoundKept(before, entries, now, maxEntries);
      changed := entries.Keys != keysBefore;
    }

    /** `_trim_observed`. */
    method TrimObserved(now: real)
      modifies `observed
      ensures TimesTrimmed(old(observed), observed, now, maxEntries)
    {
      var alive := AliveTimes(observed, now);
      var kept := DropOldest(alive, maxEntries);
      TimesTrimmedIs(observed, kept, now, maxEntries);
      observed := Restrict(alive, kept);
    }

    /** The entry of a post is set, its sighting forgotten, and both tables trimmed to size. */
    method Replace(k: Key, e: Entry, now: real)
      requires EntriesGood(entries, maxEntries) && TokensOk() && e.replies != []
      modifies `entries, `observed, `tokens, `registered
      ensures EntriesGood(entries, maxEntries) && TokensOk()
      ensures Trimmed(old(entries)[k := e], entries, now, maxEntries)
      ensures observed == StillSeen(old(observed) - {k}, old(entries)[k := e], entries)
      ensures e.expires > now && |old(entries)| < maxEntries ==> k in entries
    {
      hide TokensGood, Trimmed, EntriesGood, Sound, Restrict, Alive, StillSeen;
      GoodIsSound(entries, maxEntries);
      SoundWith(entries, k, e);
      GrownByOne(entries, k, e);
      entries := entries[k := e];
      observed := observed - {k};
      ghost var grown := entries;
      var _ := TrimEntries(now);
      if e.expires > now && |old(entries)| < maxEntries { StillThere(grown, entries, k, now, maxEntries); }
    }

    /** `remember_many`. */
    method RememberMany(k: Key, replies: seq<int>, now: real)
      requires Valid()
      modifies `entries, `observed, `tokens, `registered, `pending, `saving, `snapshot
      ensures Valid()
      ensures replies == [] ==> entries == old(entries) && observed == old(observed) && pending == old(pending)
      ensures replies != [] ==> pending.Some? && saving && snapshot == Some(entries)
      ensures replies != [] ==> Trimmed(old(entries)[k := Entry(now + ttl, replies)], entries, now, maxEntries)
      ensures replies != [] ==> observed == StillSeen(old(observed) - {k}, old(entries)[k := Entry(now + ttl, replies)], entries)
      ensures replies != [] && ttl > 0.0 && |old(entries)| < maxEntries ==> k in entries
    {
      hide ClaimsGood, TokensGood, SaverGood, Trimmed, EntriesGood, Sound, StillSeen;
      if replies == [] { return; }
      WriterIsSaver();
      Replace(k, Entry(now + ttl, replies), now);
      GoodIsSound(entries, maxEntries);
      Save();
    }

    /** `get_many`: an expired entry is dropped, unsaved; at no later time does that change an answer. */
    method GetMany(k: Key, now: real) returns (r: seq<int>)
      requires Valid()
      modifies `entries, `observed, `tokens, `registered, `latest
      ensures Valid() && r == Answer(old(entries), k, now)
      ensures r == if k in old(entries) && old(entries)[k].expires > now then old(entries)[k].replies else []
      ensures forall o, t :: t >= now ==> Answer(entries, o, t) == Answer(old(entries), o, t)
      ensures r != [] ==> entries == old(entries) && tokens == old(tokens)
      ensures observed == if k in old(entries) && r == [] then old(observed) - {k} else old(observed)
    {
      hide ClaimsGood, TokensGood, Encodes, Covers, EntriesGood, Sound, Restrict, Alive;
      if k !in entries { return []; }
      RepliesThere(entries, k, maxEntries);
      if now >= entries[k].expires {
        EntriesDropped(entries, k, maxEntries);
        AnswersAfterDrop(entries, k, now);
        ghost var later := if latest < now then now else latest;
        if snapshot.Some? { ExpiredDropped(entries, snapshot.value, k, now, latest, later); }
        ForgetKey(k);
        latest := later;
        return [];
      }
      return entries[k].replies;
    }

    /** `forget`. */
    method Forget(k: Key)
      requires Valid()
      modifies `entries, `observed, `tokens, `registered, `pending, `saving, `snapshot
      ensures Valid() && entries == old(entries) - {k} && snapshot == Some(entries)
    {
      hide EntriesGood, Sound, ClaimsGood, TokensGood, SaverGood, Restrict, Alive;
      WriterIsSaver();
      EntriesDropped(entries, k, maxEntries);
      GoodIsSound(entries - {k}, maxEntries);
      ForgetKey(k);
      Save();
    }

    /** Both tables trimmed to size. */
    method TrimBoth(now: real) returns (changed: bool)
      requires EntriesGood(entries, maxEntries) && TokensOk()
      modifies `entries, `observed, `tokens, `registered
      ensures EntriesGood(entries, maxEntries) && TokensOk() && (changed <==> entries != old(entries))
      ensures Trimmed(old(entries), entries, now, maxEntries)
      ensures TimesTrimmed(StillSeen(old(observed), old(entries), entries), observed, now, maxEntries)
    {
      hide TokensGood, Trimmed, TimesTrimmed, EntriesGood, Sound, Restrict, StillSeen;
      GoodIsSound(entries, maxEntries);
      changed := TrimEntries(now);
      TrimObserved(now);
    }

    /** `prune`. */
    method Prune(now: real)
      requires Valid()
      modifies `entries, `observed, `tokens, `registered, `pending, `saving, `snapshot
      ensures Valid() && Trimmed(old(entries), entries, now, maxEntries)
      ensures TimesTrimmed(StillSeen(old(observed), old(entries), entries), observed, now, maxEntries)
      ensures entries != old(entries) ==> pending.Some? && saving && snapshot == Some(entries)
    {
      hide ClaimsGood, TokensGood, SaverGood, Trimmed, TimesTrimmed, EntriesGood, Sound, StillSeen;
      WriterIsSaver();
      var changed := TrimBoth(now);
      GoodIsSound(entries, maxEntries);
      if changed { Save(); }
    }

    // ---------------------------------------------------------------- single flight

    /** `remember_observed_without_reply`. */
    method RememberObserved(k: Key, now: real)
      modifies `observed
      ensures TimesTrimmed(old(observed)[k := now + ttl], observed, now, maxEntries)
    {
      observed := observed[k := now + ttl];
      TrimObserved(now);
    }

    /**
     `claim_original`: the first claim produces, claims during its flight wait for its event, later
     ones find the post done.
     */
    method ClaimOriginal(k: Key, resumeObserved: bool, now: real) returns (c: Claim)
      requires Valid()
      modifies `entries, `observed, `tokens, `registered, `latest, `inFlight, `nextEvent, `unfinished
      ensures Valid() && c.key == k
      ensures c.role == Waiter <==> k in old(inFlight)
      ensures c.role == Waiter ==> Claim(k, c.event, Producer) in unfinished && c.event.Some? && c.event.value !in raised
      ensures c.role == Done <==>
                && k !in old(inFlight)
                && (Answer(old(entries), k, now) != []
                    || (!resumeObserved && k !in old(entries) && k in old(observed) && now < old(observed)[k]))
      ensures c.role == Producer ==>
                && (forall d <- old(unfinished) :: d.key != k)
                && unfinished == old(unfinished) + {c} && Answer(old(entries), k, now) == []
      ensures c.role != Producer ==> unfinished == old(unfinished)
    {
      hide ClaimsGood, TokensGood, SaverGood, EntriesGood, Answer;
      if k in inFlight {
        ProducerOf(k);
        return Claim(k, Some(inFlight[k]), Waiter);
      }
      var tracked := GetMany(k, now);
      if tracked != [] { return Claim(k, None, Done); }
      if !resumeObserved && k in observed {
        if now < observed[k] { return Claim(k, None, Done); }
        observed := observed - {k};
      }
      c := StartClaim(k);
    }

    /** The new event of a first claim. */
    method StartClaim(k: Key) returns (c: Claim)
      requires ClaimsOk() && k !in inFlight
      modifies `inFlight, `nextEvent, `unfinished
      ensures ClaimsOk() && c.key == k && c.role == Producer
      ensures unfinished == old(unfinished) + {c} && forall d <- old(unfinished) :: d.key != k
    {
      ClaimStarted(inFlight, nextEvent, raised, unfinished, k);
      hide ClaimsGood;
      c := Claim(k, Some(nextEvent), Producer);
      inFlight := inFlight[k := nextEvent];
      nextEvent := nextEvent + 1;
      unfinished := unfinished + {c};
    }

    /** `finish_original`: only a producer's own claim is withdrawn, and everyone waiting for it wakes. */
    method FinishOriginal(c: Claim)
      requires Valid() && (c.role == Producer ==> c in unfinished || (c.event.Some? && c.event.value in raised))
      modifies `inFlight, `raised, `unfinished
      ensures Valid()
      ensures unfinished == old(unfinished) - {c}
      ensures c.role == Producer && c.event.Some? ==> c.event.value in raised
      ensures c in old(unfinished) ==> c.key !in inFlight
    {
      hide ClaimsGood, TokensGood, SaverGood, EntriesGood;
      if c.role != Producer || c.event.None? {
        if c in unfinished { ProducersOnly(inFlight, nextEvent, raised, unfinished, c); }
        return;
      }
      ClaimFinished(inFlight, nextEvent, raised, unfinished, c);
      if c.key in inFlight && inFlight[c.key] == c.event.value { inFlight := inFlight - {c.key}; }
      raised := raised + {c.event.value};
      unfinished := unfinished - {c};
    }

    lemma ProducerOf(k: Key)
      requires ClaimsOk() && k in inFlight
      ensures Claim(k, Some(inFlight[k]), Producer) in unfinished && inFlight[k] !in raised
    {
      assert k in inFlight.Keys;
    }

    /** At most one unfinished producer per post. */
    lemma OneProducer(c: Claim, d: Claim)
      requires ClaimsOk() && c in unfinished && d in unfinished && c.key == d.key
      ensures c == d
    {
    }

    // ---------------------------------------------------------------- edit tokens

    /** `_prune_edit_tokens`. */
    method PruneTokens(now: real)
      requires TokensOk()
      modifies `tokens, `registered
      ensures TokensOk()
      ensures tokens == Restrict(old(tokens), tokens.Keys) && registered == Restrict(old(registered), tokens.Keys)
      ensures TimesTrimmed(TokenTimes(old(tokens)), TokenTimes(tokens), now, maxEntries)
    {
      hide TokensGood, TokenTimes, AliveTimes, TimesTrimmed, Restrict, Older;
      var alive := AliveTimes(TokenTimes(tokens), now);
      var kept := DropOldest(alive, maxEntries);
      TokensRestricted(tokens, registered, nextToken, kept);
      TimesTrimmedIs(TokenTimes(tokens), kept, now, maxEntries);
      TimesRestricted(tokens, kept, now);
      tokens, registered := Restrict(tokens, kept), Restrict(registered, kept);
    }

    /** `begin_edit`: while a post's token is held, a token drawn here is larger than all before it. */
    method BeginEdit(k: Key, updateId: Option<int>, now: real) returns (token: int)
      requires TokensOk()
      modifies `tokens, `nextToken, `registered
      ensures TokensOk() && (updateId.Some? ==> token == updateId.value)
      ensures k in tokens && token in registered[k] && token <= tokens[k].number
      ensures tokens[k] == Token(token, now + ttl)
              || (k in old(tokens) && tokens[k] == old(tokens)[k] && now < tokens[k].expires)
      ensures k in old(tokens) && now < old(tokens)[k].expires && |old(tokens)| <= maxEntries ==>
                registered[k] == old(registered)[k] + {token}
                    && (updateId.None? ==> forall t <- old(registered)[k] :: t < token)
    {
      hide TokensGood, TokenTimes, TimesTrimmed, Restrict, Raise, Register;
      TokenHeld(tokens, registered, nextToken, k);
      PruneTokens(now);
      RestrictedAt(old(tokens), tokens.Keys, k);
      RestrictedAt(old(registered), tokens.Keys, k);
      TokenHeld(tokens, registered, nextToken, k);
      TokensPruned(old(tokens), tokens, k, now, maxEntries);
      if updateId.None? {
        var floor := if k in tokens then tokens[k].number else 0;
        nextToken := (if nextToken < floor then floor else nextToken) + 1;
        token := nextToken;
      } else {
        token := updateId.value;
        nextToken := if nextToken < token then token else nextToken;
      }
      TokenRaised(tokens, registered, old(nextToken), nextToken, k, token, now + ttl);
      TokenRegistered(tokens, registered, k, token, now + ttl);
      tokens, registered := Raise(tokens, k, token, now + ttl), Register(registered, k, token);
    }

    /** `is_latest_edit`: only ever the largest token registered while the post's token is held. */
    method IsLatestEdit(k: Key, token: int, now: real) returns (r: bool)
      requires TokensOk()
      ensures r <==> k in tokens && now < tokens[k].expires && tokens[k].number == token
      ensures r ==> k in registered && token in registered[k] && forall t <- registered[k] :: t <= token
    {
      if k !in tokens || now >= tokens[k].expires { return false; }
      assert k in tokens.Keys;
      return tokens[k].number == token;
    }

    // ---------------------------------------------------------------- saving

    /** `_save_best_effort` on the event loop: the newest snapshot replaces the one waiting. */
    method Save()
      requires Sound(entries) && (writing.Some? ==> saving)
      modifies `pending, `saving, `snapshot
      ensures SaverOk() && pending.Some? && saving && snapshot == Some(entries) && Encodes(pending.value, entries)
    {
      hide Encodes, Covers;
      var p := BuildPayload(entries);
      SnapshotTaken(entries, latest);
      pending, saving, snapshot := Some(p), true, Some(entries);
    }

    /** `_save_best_effort` without a running loop: the write has ended when the call returns. */
    method SaveInline(end: WriteEnd)
      requires Sound(entries) && pending.None? && writing.None?
      modifies `disk, `snapshot, `landed
      ensures SaverOk() && snapshot == Some(entries) && (landed <==> end.Written? || end.DurabilityUncertain?)
      ensures if Reaches(end) then disk.Some? && Encodes(disk.value, entries) else disk == old(disk)
    {
      hide Encodes, Covers;
      var p := BuildPayload(entries);
      SnapshotTaken(entries, latest);
      snapshot := Some(entries);
      landed := end.Written? || end.DurabilityUncertain?;
      if Reaches(end) { disk := Some(p); }
    }

    /** The saver's task takes the waiting snapshot, or ends. */
    method TakePending()
      requires SaverOk() && saving && writing.None?
      modifies `pending, `writing, `saving
      ensures SaverOk() && pending.None? && (saving <==> old(pending).Some?) && writing == old(pending)
    {
      hide Encodes, Covers;
      writing, saving, pending := pending, pending.Some?, None;
    }

    /** A write ends; a cancelled one stops the saver. */
    method WriteEnds(end: WriteEnd)
      requires SaverOk() && writing.Some?
      modifies `writing, `saving, `disk, `landed
      ensures SaverOk() && writing.None? && (landed <==> end.Written? || end.DurabilityUncertain?)
      ensures saving <==> !end.Cancelled?
      ensures disk == if Reaches(end) then old(writing) else old(disk)
    {
      hide Encodes, Covers;
      landed := end.Written? || end.DurabilityUncertain?;
      if Reaches(end) { disk := writing; }
      writing, saving := None, !end.Cancelled?;
    }

    /** `aflush` at shutdown: what runs is waited for, then the entries themselves are written. */
    method Flush(running: WriteEnd, last: WriteEnd)
      requires Valid()
      modifies `pending, `writing, `saving, `disk, `snapshot, `landed
      ensures Valid() && pending.None? && writing.None? && !saving && snapshot == Some(entries)
      ensures last.Written? || last.DurabilityUncertain? ==> landed && disk.Some? && Encodes(disk.value, entries)
    {
      hide ClaimsGood, TokensGood, Encodes, Covers;
      if writing.Some? { WriteEnds(running); }
      pending, saving := None, false;
      SaveInline(last);
    }

    /** When the saver is idle and its last write landed, the file's living rows are the living entries. */
    lemma FileIsAlive(now: real)
      requires Valid() && pending.None? && writing.None? && landed && latest <= now
      ensures disk.Some? && FromFile(disk, now) == Alive(entries, now)
    {
      hide ClaimsGood, TokensGood, Encodes;
      SaveLoadRoundTrip(disk.value, snapshot.value, now);
      hide FromDisk, Sound;
      var fromDisk := FromDisk(disk.value, now);
      forall k ensures k in fromDisk <==> k in Alive(entries, now)
      {
        assert k in entries ==> k in entries.Keys;
        assert k in snapshot.value ==> k in snapshot.value.Keys;
      }
      forall k | k in fromDisk ensures fromDisk[k] == entries[k] { assert k in fromDisk.Keys && k in entries.Keys; }
    }

    /** So whatever is asked from then on, the file's rows answer as the index does. */
    lemma FreshAnswersAlike(loadedAt: real, k: Key, now: real)
      requires Valid() && pending.None? && writing.None? && landed && latest <= loadedAt <= now
      ensures disk.Some? && Answer(FromFile(disk, loadedAt), k, now) == Answer(entries, k, now)
    {
      hide FromFile;
      FileIsAlive(loadedAt);
    }
  }

  /**
   Any interleaving of the index's users with its saver, at any clock readings: the invariant
   holds throughout, so no post ever has two unfinished producers.
   */
  method AnyRun(index: ReplyIndex, steps: nat)
    requires index.Valid()
    modifies index
    ensures index.Valid()
    ensures forall c, d :: c in index.unfinished && d in index.unfinished && c.key == d.key ==> c == d
  {
    hide EntriesGood, ClaimsGood, TokensGood, SaverGood, Trimmed, Answer;
    for step := 0 to steps
      invariant index.Valid()
    {
      AnyStep(index);
    }
    forall c, d | c in index.unfinished && d in index.unfinished && c.key == d.key ensures c == d { index.OneProducer(c, d); }
  }

  /** One step of a user or of the saver. */
  method AnyStep(index: ReplyIndex)
    requires index.Valid()
    modifies index
    ensures index.Valid()
  {
    hide EntriesGood, ClaimsGood, TokensGood, SaverGood, Trimmed, Answer, TimesTrimmed, TokenTimes, Restrict,
        StillSeen, Encodes;
    var kind: int, k: Key, now: real, flag: bool, replies: seq<int>, c: Claim := *, *, *, *, *, *;
    if kind == 0 {
      index.RememberMany(k, replies, now);
    } else if kind == 1 {
      var _ := index.GetMany(k, now);
    } else if kind == 2 {
      index.Forget(k);
    } else if kind == 3 {
      index.Prune(now);
    } else if kind == 4 {
      index.RememberObserved(k, now);
    } else if kind == 5 {
      var _ := index.ClaimOriginal(k, flag, now);
    } else if kind == 6 && k in index.inFlight {
      index.ProducerOf(k);
      index.FinishOriginal(Claim(k, Some(index.inFlight[k]), Producer));
    } else if kind == 7 && c.role == Producer && c.event.Some? && c.event.value in index.raised {
      index.FinishOriginal(c);
    } else if kind < 0 {
      SaverStep(index);
    } else {
      TokenStep(index);
    }
  }

  method SaverStep(index: ReplyIndex)
    requires index.Valid()
    modifies index
    ensures index.Valid()
  {
    hide EntriesGood, ClaimsGood, TokensGood, SaverGood;
    var kind: int, end: WriteEnd, last: WriteEnd := *, *, *;
    if kind == 0 && index.saving && index.writing.None? {
      index.TakePending();
    } else if kind == 1 && index.writing.Some? {
      index.WriteEnds(end);
    } else if kind == 2 {
      index.Flush(end, last);
    }
  }

  method TokenStep(index: ReplyIndex)
    requires index.Valid()
    modifies index
    ensures index.Valid()
  {
    hide EntriesGood, ClaimsGood, TokensGood, SaverGood, TimesTrimmed, TokenTimes, Restrict;
    var editing: bool, k: Key, update: Option<int>, now: real := *, *, *, *;
    if editing {
      var _ := index.BeginEdit(k, update, now);
    } else {
      index.PruneTokens(now);
    }
  }

  /**
   A restart loses nothing: after a save that landed, an index constructed from the file holds
   exactly the entries still alive and answers `get_many` as the old one would, from then on.
   */
  method Restart(index: ReplyIndex, maxEntries: nat, now: real, saved: WriteEnd) returns (next: ReplyIndex)
    requires index.Valid() && index.pending.None? && index.writing.None? && index.landed
    requires index.latest <= now && index.maxEntries <= maxEntries
    ensures fresh(next) && next.Valid() && next.unfinished == {}
    ensures next.entries == Alive(index.entries, now)
    ensures forall k, t :: t >= now ==> Answer(next.entries, k, t) == Answer(index.entries, k, t)
  {
    hide EntriesGood, ClaimsGood, TokensGood, SaverGood, Trimmed, FromFile;
    index.FileIsAlive(now);
    AliveFits(index.entries, now, index.maxEntries);
    next := new ReplyIndex(index.ttl, maxEntries, index.disk, now, saved);
  }

  lemma AliveFits(entries: map<Key, Entry>, now: real, most: nat)
    requires EntriesGood(entries, most)
    ensures 1 <= most && |Alive(entries, now)| <= most
  {
    assert |Alive(entries, now).Keys| == |Alive(entries, now)| && |entries.Keys| == |entries|;
    SubsetSize(Alive(entries, now).Keys, entries.Keys);
  }

  /** What a start-up reads. */
  function FromFile(disk: Option<Payload>, now: real): map<Key, Entry>
  {
    if disk.Some? then FromDisk(disk.value, now) else map[]
  }

  lemma FromFileSound(disk: Option<Payload>, now: real)
    ensures Sound(FromFile(disk, now)) && forall k :: k in FromFile(disk, now) ==> FromFile(disk, now)[k].expires > now
  {
    if disk.Some? { FromDiskSound(disk.value, now); }
  }

  lemma RestrictTwice<V>(all: map<Key, V>, some: map<Key, V>, gone: set<Key>, keys: set<Key>)
    requires gone !! keys && some == all - gone
    ensures Restrict(some, keys) == Restrict(all, keys)
  {
  }

  /** The sightings left when those of the posts that lost their entry are forgotten. */
  function StillSeen(observed: map<Key, real>, before: map<Key, Entry>, after: map<Key, Entry>): map<Key, real>
  {
    observed - (before.Keys - after.Keys)
  }

  lemma DroppedTwice<V>(m: map<Key, V>, all: set<Key>, gone: set<Key>, keys: set<Key>)
    requires gone <= all && keys <= all - gone
    ensures m - gone - (all - gone - keys) == m - (all - keys)
  {
  }

  lemma DroppedToo<V>(m: map<Key, V>, gone: set<Key>, k: Key)
    ensures m - gone - {k} == m - (gone + {k})
  {
  }

  lemma NothingDropped<V>(m: map<Key, V>)
    ensures m - {} == m
  {
  }

  lemma AliveIs(entries: map<Key, Entry>, gone: set<Key>, now: real)
    requires forall k <- gone :: k in entries && entries[k].expires <= now
    requires forall k :: k in entries - gone ==> entries[k].expires > now
    ensures entries - gone == Alive(entries, now) && gone <= entries.Keys
        && (entries - gone).Keys == entries.Keys - gone
  {
  }

  lemma Smaller(entries: map<Key, Entry>, k: Key)
    ensures |entries - {k}| <= |entries|
    ensures k in entries ==> |entries - {k}| < |entries|
  {
    assert (entries - {k}).Keys == entries.Keys - {k};
    assert |(entries - {k}).Keys| == |entries - {k}| && |entries.Keys| == |entries|;
  }

  lemma GrownByOne(entries: map<Key, Entry>, k: Key, e: Entry)
    ensures |entries[k := e]| <= |entries| + 1
  {
    assert entries[k := e].Keys == entries.Keys + {k};
    assert |entries[k := e].Keys| == |entries[k := e]| && |entries.Keys| == |entries|;
  }

  /** With room for all, trimming keeps whatever is alive. */
  lemma StillThere(grown: map<Key, Entry>, entries: map<Key, Entry>, k: Key, now: real, most: nat)
    requires k in grown && grown[k].expires > now && |grown| <= most && Trimmed(grown, entries, now, most)
    ensures k in entries
  {
    assert |entries.Keys| == |entries| && |grown.Keys| == |grown|;
    assert forall o <- entries.Keys :: o in entries && o in grown;
    if k !in entries { SmallerKept(entries.Keys, grown.Keys, k); }
  }

  lemma NothingTrimmed(grown: map<Key, Entry>, entries: map<Key, Entry>, now: real, most: nat)
    requires Trimmed(grown, entries, now, most) && |grown| <= most && forall k :: k in grown ==> grown[k].expires > now
    ensures entries == grown
  {
    forall k | k in grown ensures k in entries { StillThere(grown, entries, k, now, most); }
    assert forall k :: k in entries ==> k in grown && entries[k] == grown[k];
  }

  lemma {:induction false} LoadedAlive(rows: seq<Row>, now: real)
    ensures forall k :: k in Loaded(rows, now) ==> Loaded(rows, now)[k].expires > now
  {
    if rows != [] { LoadedAlive(rows[..|rows| - 1], now); }
  }

  lemma {:induction false} SubsetSize(a: set<Key>, b: set<Key>)
    requires a <= b
    ensures |a| <= |b|
  {
    assert b == a + (b - a);
    assert |b| == |a| + |b - a|;
  }

  lemma FromDiskSound(p: Payload, now: real)
    ensures Sound(FromDisk(p, now)) && forall k :: k in FromDisk(p, now) ==> FromDisk(p, now)[k].expires > now
  {
    if Supported(p) {
      ReadableSound(p.entries.value);
      LoadedSound(Readable(p.entries.value), now);
      LoadedAlive(Readable(p.entries.value), now);
    }
  }

  lemma {:induction false} ReadableSound(raws: seq<Raw>)
    ensures forall row <- Readable(raws) :: row.entry.replies != []
  {
    if raws != [] { ReadableSound(raws[..|raws| - 1]); }
  }

  lemma {:induction false} LoadedSound(rows: seq<Row>, now: real)
    requires forall row <- rows :: row.entry.replies != []
    ensures Sound(Loaded(rows, now))
  {
    if rows != [] {
      assert rows[|rows| - 1] in rows;
      LoadedSound(rows[..|rows| - 1], now);
    }
  }
}
