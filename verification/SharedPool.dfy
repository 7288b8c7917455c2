/** The shared quota pool: one database row, one conditional statement, any clock readings. */
module SharedPool {
  import opened Text

  datatype Kind = Terms | Translations | Meta | Review

  /** A charge that the statement committed, at the second the database then read. */
  datatype Admission = Admission(time: nat, kind: Kind, characters: nat)

  datatype Row = Row(second: int, minute: int, day: int, upstream: int, translationMinute: int,
                     terms: int, translations: int, characters: int, meta: int, reviews: int)

  const MINUTE := 60
  const DAY := 86400

  // ---------------------------------------------------------------- quotas

  /** Everything that is rationed, per minute or per day. */
  datatype Quota = Upstream | TranslationMinute | TermsDay | TranslationsDay | CharactersDay | MetaDay | ReviewsDay

  function Period(q: Quota): nat { if q.Upstream? || q.TranslationMinute? then MINUTE else DAY }

  /** `POOL_LIMITS`. */
  function Limit(q: Quota): nat
  {
    match q
    case Upstream => 6
    case TranslationMinute => 1
    case TermsDay => 240
    case TranslationsDay => 30
    case CharactersDay => 12000
    case MetaDay => 60
    case ReviewsDay => 60
  }

  /** What one request costs. */
  function Charge(q: Quota, kind: Kind, characters: nat): nat
  {
    match q
    case Upstream => 1
    case TranslationMinute => if kind.Translations? then 1 else 0
    case TermsDay => if kind.Terms? then 1 else 0
    case TranslationsDay => if kind.Translations? then 1 else 0
    case CharactersDay => if kind.Translations? then characters else 0
    case MetaDay => if kind.Meta? then 1 else 0
    case ReviewsDay => if kind.Review? then 1 else 0
  }

  function Used(row: Row, q: Quota): int
  {
    match q
    case Upstream => row.upstream
    case TranslationMinute => row.translationMinute
    case TermsDay => row.terms
    case TranslationsDay => row.translations
    case CharactersDay => row.characters
    case MetaDay => row.meta
    case ReviewsDay => row.reviews
  }

  /** What a window has been charged in all. */
  function Total(log: seq<Admission>, q: Quota, window: int): nat
  {
    if log == [] then 0
    else
      var a := log[|log| - 1];
      (if a.time / Period(q) == window then Charge(q, a.kind, a.characters) else 0) + Total(log[..|log| - 1], q, window)
  }

  /** Admissions are at least a second apart, and no window of any quota is overdrawn. */
  ghost predicate WithinLimits(log: seq<Admission>)
  {
    && (forall i, j :: 0 <= i < j < |log| ==> log[i].time < log[j].time)
    && (forall q: Quota, window: int :: Total(log, q, window) <= Limit(q))
  }

  /** The stored row is the last admission's second and the totals of its windows. */
  ghost predicate Stored(row: Option<Row>, log: seq<Admission>)
  {
    if log == [] then row == None
    else
      var last := log[|log| - 1].time;
      && row.Some? && row.value.second == last && row.value.minute == last / MINUTE && row.value.day == last / DAY
      && forall q: Quota :: Used(row.value, q) == Total(log, q, last / Period(q))
  }

  // ---------------------------------------------------------------- the statement

  /** A counter carried into the window of `now`, or started afresh. */
  function Carried(row: Row, q: Quota, now: nat): int
  {
    if (if Period(q) == MINUTE then row.minute else row.day) == now / Period(q) then Used(row, q) else 0
  }

  /** The `WHERE` clause of the admission statement. */
  predicate Admits(row: Row, now: nat, kind: Kind, characters: nat)
  {
    && row.second < now && row.minute <= now / MINUTE && row.day <= now / DAY
    && Carried(row, Upstream, now) < 6
    && (kind.Translations? ==> Carried(row, TranslationMinute, now) < 1)
    && (kind.Terms? ==> Carried(row, TermsDay, now) < 240)
    && (kind.Translations? ==> Carried(row, TranslationsDay, now) < 30)
    && (kind.Translations? ==> Carried(row, CharactersDay, now) + characters <= 12000)
    && (kind.Meta? ==> Carried(row, MetaDay, now) < 60)
    && (kind.Review? ==> Carried(row, ReviewsDay, now) < 60)
  }

  function Flag(b: bool): nat { if b then 1 else 0 }

  /** The row the statement inserts. */
  function FirstRow(now: nat, kind: Kind, characters: nat): Row
  {
    Row(now, now / MINUTE, now / DAY, 1, Flag(kind.Translations?), Flag(kind.Terms?), Flag(kind.Translations?),
        if kind.Translations? then characters else 0, Flag(kind.Meta?), Flag(kind.Review?))
  }

  /** The row its `DO UPDATE` stores. */
  function NextRow(row: Row, now: nat, kind: Kind, characters: nat): Row
  {
    Row(now, now / MINUTE, now / DAY,
        Carried(row, Upstream, now) + 1,
        Carried(row, TranslationMinute, now) + Flag(kind.Translations?),
        Carried(row, TermsDay, now) + Flag(kind.Terms?),
        Carried(row, TranslationsDay, now) + Flag(kind.Translations?),
        Carried(row, CharactersDay, now) + (if kind.Translations? then characters else 0),
        Carried(row, MetaDay, now) + Flag(kind.Meta?),
        Carried(row, ReviewsDay, now) + Flag(kind.Review?))
  }

  // ---------------------------------------------------------------- totals

  lemma {:induction false} TotalBefore(log: seq<Admission>, q: Quota, window: int)
    requires forall a <- log :: a.time / Period(q) != window
    ensures Total(log, q, window) == 0
  {
    if log != [] {
      assert log[|log| - 1] in log;
      forall a <- log[..|log| - 1] ensures a in log {}
      TotalBefore(log[..|log| - 1], q, window);
    }
  }

  lemma TotalPlus(log: seq<Admission>, a: Admission, q: Quota, window: int)
    ensures Total(log + [a], q, window)
            == Total(log, q, window) + if a.time / Period(q) == window then Charge(q, a.kind, a.characters) else 0
  {
    assert (log + [a])[..|log|] == log;
  }

  lemma DivMonotone(a: nat, b: nat, period: nat)
    requires a <= b && (period == MINUTE || period == DAY)
    ensures a / period <= b / period
  {
  }

  /** The carried counter is the total of the window of `now`. */
  lemma CarriedIsTotal(row: Row, log: seq<Admission>, q: Quota, now: nat)
    requires Stored(Some(row), log) && WithinLimits(log) && row.second < now
    ensures Carried(row, q, now) == Total(log, q, now / Period(q))
  {
    hide Charge, Limit;
    var last := log[|log| - 1].time;
    assert (if Period(q) == MINUTE then row.minute else row.day) == last / Period(q);
    if last / Period(q) != now / Period(q) {
      forall a <- log ensures a.time / Period(q) != now / Period(q)
      {
        var i :| 0 <= i < |log| && log[i] == a;
        assert a.time <= last;
        DivMonotone(a.time, last, Period(q));
        DivMonotone(last, now, Period(q));
      }
      TotalBefore(log, q, now / Period(q));
    }
  }

  /** The statement's conditions leave room in every quota, and it charges each what the request costs. */
  lemma AdmitsMeansRoom(row: Row, now: nat, kind: Kind, characters: nat, q: Quota)
    requires Admits(row, now, kind, characters)
    ensures Charge(q, kind, characters) > 0 ==> Carried(row, q, now) + Charge(q, kind, characters) <= Limit(q)
    ensures Used(NextRow(row, now, kind, characters), q) == Carried(row, q, now) + Charge(q, kind, characters)
  {
  }

  /** Nobody is turned away but for the spacing of a second or a window the request would really overdraw. */
  lemma AdmitsIffRoom(row: Row, log: seq<Admission>, now: nat, kind: Kind, characters: nat)
    requires Stored(Some(row), log) && WithinLimits(log)
    ensures Admits(row, now, kind, characters)
            <==> row.second < now && forall q: Quota :: Charge(q, kind, characters) > 0 ==>
                   Total(log, q, now / Period(q)) + Charge(q, kind, characters) <= Limit(q)
  {
    hide Total, Stored, Limit;
    if row.second < now {
      forall q: Quota ensures Carried(row, q, now) == Total(log, q, now / Period(q)) { CarriedIsTotal(row, log, q, now); }
      KeysNotLater(row, log, now);
      hide Carried;
      RoomInEach(row, now, kind, characters);
    }
  }

  lemma KeysNotLater(row: Row, log: seq<Admission>, now: nat)
    requires Stored(Some(row), log) && row.second < now
    ensures row.minute <= now / MINUTE && row.day <= now / DAY
  {
    DivMonotone(row.second, now, MINUTE);
    DivMonotone(row.second, now, DAY);
  }

  /** The conditions, quota by quota. */
  lemma RoomInEach(row: Row, now: nat, kind: Kind, characters: nat)
    requires row.second < now && row.minute <= now / MINUTE && row.day <= now / DAY
    requires Carried(row, CharactersDay, now) <= Limit(CharactersDay)
    ensures Admits(row, now, kind, characters)
            <==> forall q: Quota :: Charge(q, kind, characters) > 0 ==>
                   Carried(row, q, now) + Charge(q, kind, characters) <= Limit(q)
  {
    hide Carried;
    if forall q: Quota :: Charge(q, kind, characters) > 0 ==> Carried(row, q, now) + Charge(q, kind, characters) <= Limit(q) {
      assert Charge(Upstream, kind, characters) > 0;
      assert kind.Translations? ==> Charge(TranslationMinute, kind, characters) > 0 && Charge(TranslationsDay, kind, characters) > 0;
      assert kind.Translations? && characters > 0 ==> Charge(CharactersDay, kind, characters) > 0;
      assert kind.Terms? ==> Charge(TermsDay, kind, characters) > 0;
      assert kind.Meta? ==> Charge(MetaDay, kind, characters) > 0;
      assert kind.Review? ==> Charge(ReviewsDay, kind, characters) > 0;
    }
  }

  /** One admission more keeps every promise. */
  lemma AdmissionKeeps(row: Row, log: seq<Admission>, now: nat, kind: Kind, characters: nat)
    requires Stored(Some(row), log) && WithinLimits(log) && Admits(row, now, kind, characters)
    ensures var longer := log + [Admission(now, kind, characters)];
            WithinLimits(longer) && Stored(Some(NextRow(row, now, kind, characters)), longer)
  {
    hide Limit, Carried, Used, Charge;
    var a := Admission(now, kind, characters);
    var longer := log + [a];
    forall q: Quota
      ensures Used(NextRow(row, now, kind, characters), q) == Total(longer, q, now / Period(q))
      ensures forall window: int :: Total(longer, q, window) <= Limit(q)
    {
      CarriedIsTotal(row, log, q, now);
      AdmitsMeansRoom(row, now, kind, characters, q);
      TotalPlus(log, a, q, now / Period(q));
      forall window: int ensures Total(longer, q, window) <= Limit(q) { TotalPlus(log, a, q, window); }
    }
    forall i, j | 0 <= i < j < |longer| ensures longer[i].time < longer[j].time
    {
      if j == |log| { assert i < |log| - 1 ==> log[i].time < log[|log| - 1].time; }
    }
  }

  lemma FirstKeeps(now: nat, kind: Kind, characters: nat)
    requires kind.Translations? ==> characters <= 2000
    ensures var log := [Admission(now, kind, characters)];
            WithinLimits(log) && Stored(Some(FirstRow(now, kind, characters)), log)
  {
    var a := Admission(now, kind, characters);
    forall q: Quota, window: int
      ensures Total([a], q, window) == if now / Period(q) == window then Charge(q, kind, characters) else 0
    {
      assert [] + [a] == [a];
      TotalPlus([], a, q, window);
    }
  }

  // ---------------------------------------------------------------- what the site makes of a row

  const MAX_SAFE := 9007199254740991

  /** `validRow`, of a row read together with the clock. */
  predicate ValidRow(row: Row, clock: int)
  {
    && (forall q: Quota :: 0 <= Used(row, q) <= Limit(q))
    && 0 < clock <= MAX_SAFE && 0 <= row.second <= MAX_SAFE && 0 <= row.minute <= MAX_SAFE && 0 <= row.day <= MAX_SAFE
  }

  /** A stored row always passes, up to the size of JavaScript's integers. */
  lemma StoredIsValid(row: Row, log: seq<Admission>, clock: int)
    requires Stored(Some(row), log) && WithinLimits(log)
    ensures ValidRow(row, clock) <==> 0 < clock <= MAX_SAFE && row.second <= MAX_SAFE
  {
    var last := log[|log| - 1].time;
    assert last / MINUTE <= last && last / DAY <= last;
  }

  /** `SNAPSHOT_SQL`: zeros before the first admission. */
  function Current(row: Option<Row>): Row
  {
    if row.Some? then row.value else Row(0, 0, 0, 0, 0, 0, 0, 0, 0, 0)
  }

  datatype Denial = Unavailable | TranslationDisabled | TranslationsExhausted(retry: int) | TermsExhausted(retry: int)
                  | MetaExhausted(retry: int) | ReviewsExhausted(retry: int) | Busy(retry: int)

  function Today(row: Row, q: Quota, clock: nat): int { if row.day == clock / DAY then Used(row, q) else 0 }

  predicate MinuteFull(row: Row, clock: nat, kind: Kind)
  {
    row.minute == clock / MINUTE && (row.upstream >= 6 || (kind.Translations? && row.translationMinute >= 1))
  }

  /** The reading that classifies a refusal. */
  function Classify(row: Row, clock: nat, kind: Kind, characters: nat): Denial
  {
    var untilDay := DAY - clock % DAY;
    if kind.Translations? && (Today(row, TranslationsDay, clock) >= 30 || 12000 - Today(row, CharactersDay, clock) < characters) then
      TranslationsExhausted(untilDay)
    else if kind.Terms? && Today(row, TermsDay, clock) >= 240 then TermsExhausted(untilDay)
    else if kind.Meta? && row.day == clock / DAY && row.meta >= 60 then MetaExhausted(untilDay)
    else if kind.Review? && row.day == clock / DAY && row.reviews >= 60 then ReviewsExhausted(untilDay)
    else if row.second > clock then Unavailable
    else Busy(if MinuteFull(row, clock, kind) then 60 - clock % 60 else 1)
  }

  predicate HasRetry(d: Denial) { !d.Unavailable? && !d.TranslationDisabled? }

  lemma NextDay(clock: nat)
    ensures (clock + (DAY - clock % DAY)) / DAY == clock / DAY + 1
  {
  }

  lemma NextMinute(clock: nat)
    ensures (clock + (60 - clock % 60)) / MINUTE == clock / MINUTE + 1
  {
  }

  /**
   A refusal's waiting time is enough: were nobody else admitted meanwhile, the same request would
   pass when it has elapsed.
   */
  lemma RetrySuffices(row: Row, log: seq<Admission>, clock: nat, kind: Kind, characters: nat)
    requires Stored(Some(row), log) && WithinLimits(log) && !Admits(row, clock, kind, characters)
    requires characters <= 2000 && HasRetry(Classify(row, clock, kind, characters))
    ensures Classify(row, clock, kind, characters).retry > 0
    ensures Admits(row, clock + Classify(row, clock, kind, characters).retry, kind, characters)
  {
    hide Total, WithinLimits, Admits, Classify, Used;
    StoredUsed(row, log);
    var last := log[|log| - 1].time;
    if Classify(row, clock, kind, characters).Busy? {
      BusySuffices(row, last, clock, kind, characters);
    } else {
      ExhaustedSuffices(row, last, clock, kind, characters);
    }
  }

  /** Busy: the wait is to the next minute, or to the next second. */
  lemma BusySuffices(row: Row, last: nat, clock: nat, kind: Kind, characters: nat)
    requires row.second == last && row.minute == last / MINUTE && row.day == last / DAY && characters <= 2000
    requires forall q: Quota :: 0 <= Used(row, q) <= Limit(q)
    requires !Admits(row, clock, kind, characters) && Classify(row, clock, kind, characters).Busy?
    ensures Classify(row, clock, kind, characters).retry > 0
    ensures Admits(row, clock + Classify(row, clock, kind, characters).retry, kind, characters)
  {
    hide Admits, Used, Limit;
    BusyLeavesRoom(row, clock, kind, characters);
    hide Classify, DayLeft;
    if MinuteFull(row, clock, kind) {
      NextMinute(clock);
      LaterMinute(row, last, clock, clock + (60 - clock % 60), kind, characters);
    } else {
      LaterSecond(row, last, clock, kind, characters);
    }
  }

  lemma BusyLeavesRoom(row: Row, clock: nat, kind: Kind, characters: nat)
    requires Classify(row, clock, kind, characters).Busy?
    ensures DayLeft(row, clock, kind, characters) && row.second <= clock
    ensures Classify(row, clock, kind, characters).retry == if MinuteFull(row, clock, kind) then 60 - clock % 60 else 1
  {
  }

  /** A day used up: the wait is to the next day. */
  lemma ExhaustedSuffices(row: Row, last: nat, clock: nat, kind: Kind, characters: nat)
    requires row.second == last && row.minute == last / MINUTE && row.day == last / DAY && characters <= 2000
    requires forall q: Quota :: 0 <= Used(row, q) <= Limit(q)
    requires HasRetry(Classify(row, clock, kind, characters)) && !Classify(row, clock, kind, characters).Busy?
    ensures Classify(row, clock, kind, characters).retry > 0
    ensures Admits(row, clock + Classify(row, clock, kind, characters).retry, kind, characters)
  {
    hide Admits;
    assert row.day == clock / DAY;
    NextDay(clock);
    LaterDay(row, last, clock + (DAY - clock % DAY), kind, characters);
  }

  lemma StoredUsed(row: Row, log: seq<Admission>)
    requires Stored(Some(row), log) && WithinLimits(log)
    ensures forall q: Quota :: 0 <= Used(row, q) <= Limit(q)
    ensures var last := log[|log| - 1].time; row.second == last && row.minute == last / MINUTE && row.day == last / DAY
  {
  }

  /** In a later day every counter starts afresh. */
  lemma LaterDay(row: Row, last: nat, now: nat, kind: Kind, characters: nat)
    requires row.second == last && row.minute == last / MINUTE && row.day == last / DAY && last / DAY < now / DAY
        && characters <= 2000
    ensures Admits(row, now, kind, characters)
  {
    DivLess(last, now, DAY);
    DivMonotone(last, now, MINUTE);
  }

  lemma DivLess(a: nat, b: nat, period: nat)
    requires (period == MINUTE || period == DAY) && a / period < b / period
    ensures a < b
  {
  }

  ghost predicate DayLeft(row: Row, clock: nat, kind: Kind, characters: nat)
  {
    && (kind.Translations? ==> Today(row, TranslationsDay, clock) < 30 && Today(row, CharactersDay, clock) + characters <= 12000)
    && (kind.Terms? ==> Today(row, TermsDay, clock) < 240)
    && (kind.Meta? ==> Today(row, MetaDay, clock) < 60)
    && (kind.Review? ==> Today(row, ReviewsDay, clock) < 60)
  }

  /** In the next minute the minute's counters start afresh, and the day's still have room. */
  lemma LaterMinute(row: Row, last: nat, clock: nat, now: nat, kind: Kind, characters: nat)
    requires row.second == last && row.minute == last / MINUTE && row.day == last / DAY && last <= clock < now
    requires now / MINUTE == clock / MINUTE + 1 && DayLeft(row, clock, kind, characters) && characters <= 2000
    ensures Admits(row, now, kind, characters)
  {
    assert last / MINUTE <= clock / MINUTE && last / DAY <= clock / DAY <= now / DAY;
  }

  /** With room in every window, only the second can have been in the way. */
  lemma LaterSecond(row: Row, last: nat, clock: nat, kind: Kind, characters: nat)
    requires row.second == last && row.minute == last / MINUTE && row.day == last / DAY && last <= clock
    requires !MinuteFull(row, clock, kind) && DayLeft(row, clock, kind, characters) && characters <= 2000
    requires forall q: Quota :: 0 <= Used(row, q) <= Limit(q)
    requires !Admits(row, clock, kind, characters)
    ensures Admits(row, clock + 1, kind, characters)
  {
    assert last / MINUTE <= clock / MINUTE && last / DAY <= clock / DAY;
    assert last == clock;
    assert (clock + 1) / MINUTE == clock / MINUTE || (clock + 1) / MINUTE == clock / MINUTE + 1;
    assert (clock + 1) / DAY == clock / DAY || (clock + 1) / DAY == clock / DAY + 1;
  }

  /** An exhausted day is really exhausted: the day's total leaves no room for this request. */
  lemma ExhaustedIsTrue(row: Row, log: seq<Admission>, clock: nat, kind: Kind, characters: nat)
    requires Stored(Some(row), log) && WithinLimits(log)
    ensures var d := Classify(row, clock, kind, characters);
            && (d.TermsExhausted? ==> kind.Terms? && Total(log, TermsDay, clock / DAY) == 240)
            && (d.MetaExhausted? ==> kind.Meta? && Total(log, MetaDay, clock / DAY) == 60)
            && (d.ReviewsExhausted? ==> kind.Review? && Total(log, ReviewsDay, clock / DAY) == 60)
            && (d.TranslationsExhausted? && characters <= 2000 ==>
                  kind.Translations? && (Total(log, TranslationsDay, clock / DAY) == 30
                                         || Total(log, CharactersDay, clock / DAY) + characters > 12000))
  {
    var last := log[|log| - 1].time;
    assert forall q: Quota :: Used(row, q) == Total(log, q, last / Period(q)) && Total(log, q,
        last / Period(q)) <= Limit(q);
  }

  /** The day of the clock has begun for the log: it holds no admission of a later one. */
  predicate DayKnown(log: seq<Admission>, clock: nat)
    requires log != []
  {
    log[|log| - 1].time / DAY <= clock / DAY
  }

  /**
   Why a request is refused, by what the log was charged in the windows of the clock: a day used up,
   with the wait to the next one; a clock behind the last admission; or else a busy pool, with the
   wait to the next minute if the minute is used up and to the next second if not.
   */
  ghost predicate Reasoned(log: seq<Admission>, clock: nat, kind: Kind, characters: nat, why: Denial)
    requires log != []
  {
    && (why.TranslationsExhausted? <==>
        kind.Translations? && DayKnown(log, clock)
        && (Total(log, TranslationsDay, clock / DAY) >= 30 || Total(log, CharactersDay, clock / DAY) + characters > 12000))
    && (why.TermsExhausted? <==> kind.Terms? && DayKnown(log, clock) && Total(log, TermsDay, clock / DAY) >= 240)
    && (why.MetaExhausted? <==> kind.Meta? && DayKnown(log, clock) && Total(log, MetaDay, clock / DAY) >= 60)
    && (why.ReviewsExhausted? <==> kind.Review? && DayKnown(log, clock) && Total(log, ReviewsDay, clock / DAY) >= 60)
    && !why.TranslationDisabled?
    && (why.Unavailable? || why.Busy? ==> (why.Unavailable? <==> log[|log| - 1].time > clock))
    && (HasRetry(why) && !why.Busy? ==> why.retry == DAY - clock % DAY)
    && (why.Busy? ==>
          why.retry == if Total(log, Upstream, clock / MINUTE) >= 6
                          || (kind.Translations? && Total(log, TranslationMinute, clock / MINUTE) >= 1)
                       then 60 - clock % 60 else 1)
  }

  /** A window later than the last admission's has been charged nothing. */
  lemma LaterWindow(log: seq<Admission>, q: Quota, window: int)
    requires WithinLimits(log) && log != [] && log[|log| - 1].time / Period(q) < window
    ensures Total(log, q, window) == 0
  {
    var last := log[|log| - 1].time;
    forall a <- log ensures a.time / Period(q) != window {
      var i :| 0 <= i < |log| && log[i] == a;
      assert a.time <= last;
      DivMonotone(a.time, last, Period(q));
    }
    TotalBefore(log, q, window);
  }

  /** What the row says of today is what the log was charged today. */
  lemma TodayIs(row: Row, log: seq<Admission>, clock: nat, q: Quota)
    requires Stored(Some(row), log) && WithinLimits(log) && Period(q) == DAY
    ensures log != [] && Today(row, q, clock) == if DayKnown(log, clock) then Total(log, q, clock / DAY) else 0
  {
    hide Charge, Limit;
    if log[|log| - 1].time / DAY < clock / DAY { LaterWindow(log, q, clock / DAY); }
  }

  lemma MinuteIs(row: Row, log: seq<Admission>, clock: nat, kind: Kind)
    requires Stored(Some(row), log) && WithinLimits(log) && row.second <= clock
    ensures MinuteFull(row, clock, kind)
        <==> Total(log, Upstream, clock / MINUTE) >= 6
             || (kind.Translations? && Total(log, TranslationMinute, clock / MINUTE) >= 1)
  {
    hide Charge;
    var last := log[|log| - 1].time;
    DivMonotone(last, clock, MINUTE);
    assert row.upstream == Used(row, Upstream) == Total(log, Upstream, last / MINUTE);
    assert row.translationMinute == Used(row, TranslationMinute) == Total(log, TranslationMinute, last / MINUTE);
    if last / MINUTE < clock / MINUTE {
      LaterWindow(log, Upstream, clock / MINUTE);
      LaterWindow(log, TranslationMinute, clock / MINUTE);
    }
  }

  /** The classifying reading gives just that reason. */
  lemma ClassifyReasons(row: Row, log: seq<Admission>, clock: nat, kind: Kind, characters: nat)
    requires Stored(Some(row), log) && WithinLimits(log) && characters <= 2000
    ensures log != [] && Reasoned(log, clock, kind, characters, Classify(row, clock, kind, characters))
    ensures !Classify(row, clock, kind, characters).TranslationDisabled?
  {
    TodayIs(row, log, clock, TranslationsDay);
    TodayIs(row, log, clock, CharactersDay);
    TodayIs(row, log, clock, TermsDay);
    TodayIs(row, log, clock, MetaDay);
    TodayIs(row, log, clock, ReviewsDay);
    assert row.second == log[|log| - 1].time;
    if row.second <= clock { MinuteIs(row, log, clock, kind); }
    hide Total, Stored, WithinLimits, MinuteFull, DayKnown;
  }

  // ---------------------------------------------------------------- the pool over any run

  datatype Answer = Admitted | Denied(why: Denial)

  /** What becomes of the two statements on the way: the first lost or answered too late, the second lost. */
  datatype Transit = Transit(lost: bool, late: bool, lostAgain: bool)

  /** `admitRequest`'s checks before it touches the database. */
  predicate InShape(kind: Kind, characters: int)
  {
    0 <= characters <= 2000 && (kind.Translations? ==> characters > 0) && (kind.Review? ==> characters == 0)
  }

  /** The database, shared by every instance of the site; the log is what it has charged so far. */
  class Pool {
    var row: Option<Row>
    ghost var log: seq<Admission>

    ghost predicate Valid()
      reads this
    {
      WithinLimits(log) && Stored(row, log)
    }

    constructor ()
      ensures Valid() && log == []
    {
      row, log := None, [];
    }

    /** The admission statement; a clock before 1970 breaks the table's checks and it fails. */
    method Statement(now: int, kind: Kind, characters: nat) returns (r: Option<Row>, failed: bool)
      requires Valid() && characters <= 2000
      modifies this
      ensures Valid()
      ensures r.Some? <==> log != old(log)
      ensures r.Some? ==> now >= 0 && !failed && log == old(log) + [Admission(now, kind, characters)] && row == r
      ensures old(log) <= log && (old(row).Some? ==> row.Some?)
      ensures failed <==> now < 0
      ensures r.None? ==> row == old(row)
      ensures r.None? && !failed ==> row.Some? && !Admits(row.value, now, kind, characters)
      ensures r.Some? && old(row).Some? ==> Admits(old(row).value, now, kind, characters)
    {
      hide WithinLimits, Stored, Admits;
      if now < 0 { return None, true; }
      if row.None? {
        FirstKeeps(now, kind, characters);
        NoRowNoLog(row, log);
        row, log := Some(FirstRow(now, kind, characters)), [Admission(now, kind, characters)];
        return row, false;
      }
      if !Admits(row.value, now, kind, characters) { return None, false; }
      AdmissionKeeps(row.value, log, now, kind, characters);
      row, log := Some(NextRow(row.value, now, kind, characters)), log + [Admission(now, kind, characters)];
      return row, false;
    }

    /** Other instances of the site, admitting what they will at any clock readings. */
    method OthersRun(steps: nat)
      requires Valid()
      modifies this
      ensures Valid() && old(log) <= log && (old(row).Some? ==> row.Some?)
    {
      hide WithinLimits, Stored, Admits;
      for step := 0 to steps
        invariant Valid() && old(log) <= log && (old(row).Some? ==> row.Some?)
      {
        var now: int, kind: Kind, characters: nat := *, *, *;
        if characters <= 2000 { var _, _ := Statement(now, kind, characters); }
      }
    }

    /**
     `admitRequest`.  `now` and `later` are what the two statements read from the clock; either may
     fail or come too late, and a late one stays charged.  A request in shape is admitted exactly
     when its answer arrives and the statement finds room; one that is refused learns why from the
     log as it is at the second reading, if that arrives.
     */
    method AdmitRequest(configured: bool, translationEnabled: bool, kind: Kind, characters: int, now: int,
            later: int, transit: Transit)
        returns (r: Answer)
      requires Valid()
      modifies this
      ensures Valid() && old(log) <= log
      ensures r.Admitted? ==>
                && configured && (kind.Translations? ==> translationEnabled)
                && InShape(kind, characters) && 0 < now && log == old(log) + [Admission(now, kind, characters)]
      ensures r == Denied(TranslationDisabled) <==>
                configured && InShape(kind, characters) && kind.Translations? && !translationEnabled
      ensures r.Denied? && HasRetry(r.why) ==>
                0 < later && InShape(kind, characters) && log != [] && Reasoned(log, later, kind, characters, r.why)
      ensures (&& r != Denied(TranslationDisabled)
               && (!configured || !InShape(kind, characters) || transit.lost || transit.late)) ==>
                r == Denied(Unavailable)
      ensures (&& 0 < now <= MAX_SAFE && configured && InShape(kind, characters) && (kind.Translations? ==> translationEnabled)
               && !transit.lost && !transit.late && !r.Admitted?) ==>
                && row.Some? && log != []
                && if transit.lostAgain || !(0 < later <= MAX_SAFE)
                    || row.value.second > MAX_SAFE then r == Denied(Unavailable)
                   else Reasoned(log, later, kind, characters, r.why)
      ensures 0 < now <= MAX_SAFE ==>
                (r.Admitted? <==>
                   && configured && InShape(kind, characters) && (kind.Translations? ==> translationEnabled)
                   && !transit.lost && !transit.late
                   && (old(row).None? || Admits(old(row).value, now, kind, characters)))
    {
      hide WithinLimits, Stored, Admits, Classify, Reasoned, ValidRow;
      if !configured || !InShape(kind, characters) { return Denied(Unavailable); }
      if kind.Translations? && !translationEnabled { return Denied(TranslationDisabled); }
      if transit.lost { return Denied(Unavailable); }
      var reply, failed := Statement(now, kind, characters);
      if failed || transit.late { return Denied(Unavailable); }
      if reply.Some? {
        ChargedNow(reply.value, log);
        StoredIsValid(reply.value, log, now);
        var charged := reply.value;
        if !ValidRow(charged, now) || charged.second != now || charged.minute != now / MINUTE
            || charged.day != now / DAY {
          return Denied(Unavailable);
        }
        return Admitted;
      }
      var steps: nat := *;
      OthersRun(steps);
      ClassifyReasons(row.value, log, if later > 0 then later else 0, kind, characters);
      StoredIsValid(row.value, log, later);
      if transit.lostAgain || !ValidRow(Current(row), later) { return Denied(Unavailable); }
      return Denied(Classify(Current(row), later, kind, characters));
    }
  }

  /** A row just stored carries the keys of its own second. */
  lemma ChargedNow(row: Row, log: seq<Admission>)
    requires Stored(Some(row), log)
    ensures log != [] && var last := log[|log| - 1].time;
            row.second == last && row.minute == last / MINUTE && row.day == last / DAY
  {
  }

  lemma NoRowNoLog(row: Option<Row>, log: seq<Admission>)
    requires Stored(row, log)
    ensures row.None? <==> log == []
  {
  }

  /**
   Any requests at any clock readings, forwards or backwards: no two admissions in one second, and
   no minute or day overdrawn in any of the seven quotas.
   */
  method AnyRun(requests: seq<(Kind, int, int, int)>, translationEnabled: bool)
          returns (ghost log: seq<Admission>, answers: seq<Answer>)
    ensures WithinLimits(log) && |answers| == |requests|
    ensures forall k :: 0 <= k < |requests| && answers[k].Admitted? ==>
              requests[k].1 >= 0 && requests[k].2 >= 0 && Admission(requests[k].2, requests[k].0, requests[k].1) in log
  {
    hide WithinLimits, Stored, Admits, Classify;
    var pool := new Pool();
    answers := [];
    for k := 0 to |requests|
      invariant fresh(pool) && pool.Valid() && |answers| == k
      invariant forall i :: 0 <= i < k && answers[i].Admitted? ==>
                  requests[i].1 >= 0 && requests[i].2 >= 0
                      && Admission(requests[i].2, requests[i].0, requests[i].1) in pool.log
    {
      var (kind, characters, now, later) := requests[k];
      ghost var before := pool.log;
      var lost: bool, late: bool, lostAgain: bool := *, *, *;
      var a := pool.AdmitRequest(true, translationEnabled, kind, characters, now, later,
          Transit(lost, late, lostAgain));
      assert forall x <- before :: x in pool.log;
      answers := answers + [a];
    }
    log := pool.log;
  }
}
