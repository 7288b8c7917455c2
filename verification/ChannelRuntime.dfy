/**
 Bounded admission for channel translation: a queue, a semaphore and call tokens that are
 reserved before and consumed at each model call.  One event loop runs every method to its
 next await, so the methods below are the atomic steps and any order of them is a run.
 */
module ChannelRuntime {
  import opened Text

  function Max(a: int, b: int): int { if a >= b then a else b }

  /** `(reservation_id, timestamp, started)`. */
  datatype Token = Token(id: nat, at: real, started: bool)

  datatype Rejection = QueueFull | LlmBudget

  const WINDOW := 60.0

  /** `[token for token in tokens if keep(token)]`. */
  function Kept(tokens: seq<Token>, keep: Token -> bool): (r: seq<Token>)
    ensures |r| <= |tokens|
    ensures forall t <- r :: t in tokens && keep(t)
    ensures forall t <- tokens :: keep(t) ==> t in r
  {
    if tokens == [] then []
    else (if keep(tokens[0]) then [tokens[0]] else []) + Kept(tokens[1..], keep)
  }

  /** The three filters of the token list. */
  function InWindow(cutoff: real): Token -> bool { (t: Token) => !t.started || t.at > cutoff }
  function NotOf(id: nat): Token -> bool { (t: Token) => t.id != id }
  function UsedOrNotOf(id: nat): Token -> bool { (t: Token) => t.id != id || t.started }

  /** The started calls a token list still remembers after `cutoff`. */
  function Remembered(tokens: seq<Token>, cutoff: real): nat
  {
    if tokens == [] then 0
    else (if tokens[0].started && tokens[0].at > cutoff then 1 else 0) + Remembered(tokens[1..], cutoff)
  }

  /** The calls a reservation may still start. */
  function Unused(tokens: seq<Token>, id: nat): nat
  {
    if tokens == [] then 0
    else (if tokens[0].id == id && !tokens[0].started then 1 else 0) + Unused(tokens[1..], id)
  }

  /** The calls of a history that started after `cutoff`. */
  function StartsAfter(starts: seq<real>, cutoff: real): nat
  {
    if starts == [] then 0
    else (if starts[|starts| - 1] > cutoff then 1 else 0) + StartsAfter(starts[..|starts| - 1], cutoff)
  }

  /** The calls of a history inside `[from, from + 60)`. */
  function StartsWithin(starts: seq<real>, from: real): nat
  {
    if starts == [] then 0
    else (if from <= starts[|starts| - 1] < from + WINDOW then 1 else 0) + StartsWithin(starts[..|starts| - 1], from)
  }

  predicate Monotone(starts: seq<real>) { forall i, j :: 0 <= i <= j < |starts| ==> starts[i] <= starts[j] }

  /** The calls of the sixty seconds up to the `n`-th call, itself included. */
  function Trailing(starts: seq<real>, n: nat): nat
    requires 0 < n <= |starts|
  {
    StartsAfter(starts[..n], starts[n - 1] - WINDOW)
  }

  /** At each call's start, the calls of the sixty seconds up to it stay within the budget. */
  ghost predicate BudgetKept(starts: seq<real>, limit: nat)
  {
    forall n :: 0 < n <= |starts| ==> Trailing(starts, n) <= limit
  }

  lemma {:induction false} RememberedBound(tokens: seq<Token>, cutoff: real)
    ensures Remembered(tokens, cutoff) <= |tokens|
  {
    if tokens != [] { RememberedBound(tokens[1..], cutoff); }
  }

  lemma {:induction false} RememberedConcat(a: seq<Token>, b: seq<Token>, cutoff: real)
    ensures Remembered(a + b, cutoff) == Remembered(a, cutoff) + Remembered(b, cutoff)
  {
    if a == [] {
      assert a + b == b;
    } else {
      RememberedConcat(a[1..], b, cutoff);
      assert (a + b)[1..] == a[1..] + b;
    }
  }

  /** Dropping tokens that are unstarted or older than the cutoff forgets no recent call. */
  lemma {:induction false} RememberedKept(tokens: seq<Token>, keep: Token -> bool, cutoff: real)
    requires forall t <- tokens :: t.started && t.at > cutoff ==> keep(t)
    ensures Remembered(Kept(tokens, keep), cutoff) == Remembered(tokens, cutoff)
  {
    if tokens != [] {
      RememberedKept(tokens[1..], keep, cutoff);
      if keep(tokens[0]) {
        var k := Kept(tokens[1..], keep);
        assert ([tokens[0]] + k)[1..] == k;
      } else {
        assert [] + Kept(tokens[1..], keep) == Kept(tokens[1..], keep);
      }
    }
  }

  lemma {:induction false} RememberedUnstarted(tokens: seq<Token>, cutoff: real)
    requires forall t <- tokens :: !t.started
    ensures Remembered(tokens, cutoff) == 0
  {
    if tokens != [] { RememberedUnstarted(tokens[1..], cutoff); }
  }

  /** Starting one unstarted token adds exactly one remembered call. */
  lemma {:induction false} RememberedStarted(tokens: seq<Token>, i: nat, now: real, cutoff: real)
    requires i < |tokens| && !tokens[i].started
    ensures var after := tokens[i := Token(tokens[i].id, now, true)];
            Remembered(after, cutoff) == Remembered(tokens, cutoff) + (if now > cutoff then 1 else 0)
  {
    var after := tokens[i := Token(tokens[i].id, now, true)];
    if i == 0 {
      assert after[1..] == tokens[1..];
    } else {
      RememberedStarted(tokens[1..], i - 1, now, cutoff);
      assert after[1..] == tokens[1..][i - 1 := Token(tokens[i].id, now, true)];
    }
  }

  /** A filter that keeps a reservation's unused tokens keeps their number. */
  lemma {:induction false} UnusedKept(tokens: seq<Token>, keep: Token -> bool, id: nat)
    requires forall t <- tokens :: t.id == id && !t.started ==> keep(t)
    ensures Unused(Kept(tokens, keep), id) == Unused(tokens, id)
  {
    if tokens != [] {
      UnusedKept(tokens[1..], keep, id);
      var k := Kept(tokens[1..], keep);
      assert ([tokens[0]] + k)[1..] == k && [] + k == k;
    }
  }

  lemma {:induction false} UnusedConcat(a: seq<Token>, b: seq<Token>, id: nat)
    ensures Unused(a + b, id) == Unused(a, id) + Unused(b, id)
  {
    if a == [] {
      assert a + b == b;
    } else {
      UnusedConcat(a[1..], b, id);
      assert (a + b)[1..] == a[1..] + b;
    }
  }

  /** A reservation of `calls` tokens is worth exactly `calls` starts, and nothing to anyone else. */
  lemma {:induction false} UnusedReserved(calls: nat, owner: nat, now: real, id: nat)
    ensures Unused(seq(calls, _ => Token(owner, now, false)), id) == if id == owner then calls else 0
  {
    if calls > 0 {
      var s := seq(calls, _ => Token(owner, now, false));
      UnusedReserved(calls - 1, owner, now, id);
      assert s[1..] == seq(calls - 1, _ => Token(owner, now, false));
    }
  }

  lemma {:induction false} UnusedStarted(tokens: seq<Token>, at: nat, now: real, id: nat)
    requires at < |tokens| && !tokens[at].started
    ensures Unused(tokens[at := Token(tokens[at].id, now, true)], id)
            == Unused(tokens, id) - (if tokens[at].id == id then 1 else 0)
  {
    var after := tokens[at := Token(tokens[at].id, now, true)];
    if at == 0 {
      assert after[1..] == tokens[1..];
    } else {
      UnusedStarted(tokens[1..], at - 1, now, id);
      assert after[1..] == tokens[1..][at - 1 := Token(tokens[at].id, now, true)];
    }
  }

  lemma {:induction false} NoneUnused(tokens: seq<Token>, id: nat)
    requires forall t <- tokens :: t.id == id ==> t.started
    ensures Unused(tokens, id) == 0
  {
    if tokens != [] { NoneUnused(tokens[1..], id); }
  }

  lemma StartsAfterAppend(starts: seq<real>, now: real, cutoff: real)
    ensures StartsAfter(starts + [now], cutoff) == StartsAfter(starts, cutoff) + (if now > cutoff then 1 else 0)
  {
    assert (starts + [now])[..|starts|] == starts;
  }

  /** Inside a window that ends no earlier than the last call, a half-open window counts no more than a trailing one. */
  lemma {:induction false} WithinTrailing(starts: seq<real>, from: real, last: real)
    requires last < from + WINDOW
    ensures StartsWithin(starts, from) <= StartsAfter(starts, last - WINDOW)
  {
    if starts != [] { WithinTrailing(starts[..|starts| - 1], from, last); }
  }

  /**
   The rate guarantee over a whole run: no sixty-second window, wherever it begins, holds more
   calls than the per-minute budget.
   */
  lemma {:induction false} EveryWindowWithinBudget(starts: seq<real>, limit: nat, from: real)
    requires Monotone(starts) && BudgetKept(starts, limit)
    ensures StartsWithin(starts, from) <= limit
    decreases |starts|
  {
    if starts != [] {
      var n := |starts|;
      assert starts[..n] == starts;
      if starts[n - 1] < from + WINDOW {
        WithinTrailing(starts, from, starts[n - 1]);
        assert Trailing(starts, n) <= limit;
      } else {
        var earlier := starts[..n - 1];
        forall k: nat | 0 < k <= |earlier| ensures Trailing(earlier, k) <= limit {
          assert earlier[..k] == starts[..k];
          assert Trailing(starts, k) <= limit;
        }
        EveryWindowWithinBudget(earlier, limit, from);
      }
    }
  }

  /** The token list remembers every start after `from`, and no other. */
  ghost predicate InSync(tokens: seq<Token>, starts: seq<real>, from: real)
  {
    forall c: real :: c >= from ==> Remembered(tokens, c) == StartsAfter(starts, c)
  }

  /** Token list, call history, clock and pruning cutoff agree, and the budget has been kept. */
  ghost predicate Books(tokens: seq<Token>, starts: seq<real>, clock: real, from: real, limit: nat)
  {
    && |tokens| <= limit && from <= clock - WINDOW
    && Monotone(starts) && (forall t <- starts :: t <= clock)
    && InSync(tokens, starts, from) && BudgetKept(starts, limit)
  }

  lemma BooksKept(tokens: seq<Token>, keep: Token -> bool, starts: seq<real>, clock: real, from: real, limit: nat,
          now: real, to: real)
    requires Books(tokens, starts, clock, from, limit) && clock <= now && (to == from || from <= to <= now - WINDOW)
    requires forall t <- tokens :: t.started && t.at > to ==> keep(t)
    ensures Books(Kept(tokens, keep), starts, now, to, limit)
  {
    forall c: real | c >= to ensures Remembered(Kept(tokens, keep), c) == StartsAfter(starts, c) {
      RememberedKept(tokens, keep, c);
    }
  }

  lemma BooksReserved(tokens: seq<Token>, reserved: seq<Token>, starts: seq<real>, clock: real, from: real, limit: nat)
    requires Books(tokens, starts, clock, from, limit) && |tokens| + |reserved| <= limit
    requires forall t <- reserved :: !t.started
    ensures Books(tokens + reserved, starts, clock, from, limit)
  {
    forall c: real | c >= from ensures Remembered(tokens + reserved, c) == StartsAfter(starts, c) {
      RememberedConcat(tokens, reserved, c);
      RememberedUnstarted(reserved, c);
    }
  }

  lemma SyncStarted(tokens: seq<Token>, at: nat, starts: seq<real>, from: real, now: real)
    requires InSync(tokens, starts, from) && at < |tokens| && !tokens[at].started
    ensures InSync(tokens[at := Token(tokens[at].id, now, true)], starts + [now], from)
  {
    forall c: real | c >= from
      ensures Remembered(tokens[at := Token(tokens[at].id, now, true)], c) == StartsAfter(starts + [now], c)
    {
      RememberedStarted(tokens, at, now, c);
      StartsAfterAppend(starts, now, c);
    }
  }

  lemma BudgetGrown(starts: seq<real>, now: real, limit: nat)
    requires BudgetKept(starts, limit) && StartsAfter(starts + [now], now - WINDOW) <= limit
    ensures BudgetKept(starts + [now], limit)
  {
    var grown := starts + [now];
    forall n: nat | 0 < n <= |grown| ensures Trailing(grown, n) <= limit {
      if n <= |starts| {
        assert grown[..n] == starts[..n];
        assert Trailing(starts, n) <= limit;
      } else {
        assert grown[..n] == grown;
      }
    }
  }

  /** Starting a reserved call keeps the list in step and the budget of every trailing window. */
  lemma BooksStarted(tokens: seq<Token>, at: nat, starts: seq<real>, clock: real, from: real, limit: nat, now: real)
    requires Books(tokens, starts, clock, from, limit) && clock <= now
    requires at < |tokens| && !tokens[at].started
    ensures Books(tokens[at := Token(tokens[at].id, now, true)], starts + [now], now, from, limit)
  {
    hide BudgetKept, Remembered, StartsAfter;
    var after, grown := tokens[at := Token(tokens[at].id, now, true)], starts + [now];
    SyncStarted(tokens, at, starts, from, now);
    assert forall i :: 0 <= i < |starts| ==> starts[i] in starts;
    RememberedBound(after, now - WINDOW);
    BudgetGrown(starts, now, limit);
  }

  /** One reservation's allowance changes by `change`; every other one stays. */
  ghost predicate Shifts(before: seq<Token>, after: seq<Token>, id: nat, change: int)
  {
    forall other: nat :: Unused(after, other) == Unused(before, other) + (if other == id then change else 0)
  }

  /** Forgetting started calls changes no allowance. */
  lemma ShiftsPruned(tokens: seq<Token>, cutoff: real, id: nat)
    ensures Shifts(tokens, Kept(tokens, InWindow(cutoff)), id, 0)
  {
    forall other: nat ensures Unused(Kept(tokens, InWindow(cutoff)), other) == Unused(tokens, other) {
      UnusedKept(tokens, InWindow(cutoff), other);
    }
  }

  /** A filter that drops exactly one reservation's unused tokens. */
  lemma ShiftsDropped(tokens: seq<Token>, keep: Token -> bool, id: nat)
    requires forall t <- tokens :: !t.started ==> (keep(t) <==> t.id != id)
    ensures Shifts(tokens, Kept(tokens, keep), id, 0 - Unused(tokens, id))
  {
    forall other: nat
      ensures Unused(Kept(tokens, keep), other)
          == Unused(tokens, other) - (if other == id then Unused(tokens, id) else 0)
    {
      if other == id {
        NoneUnused(Kept(tokens, keep), id);
      } else {
        UnusedKept(tokens, keep, other);
      }
    }
  }

  lemma ShiftsReserved(tokens: seq<Token>, calls: nat, id: nat, now: real)
    ensures Shifts(tokens, tokens + seq(calls, _ => Token(id, now, false)), id, calls)
  {
    var reserved := seq(calls, _ => Token(id, now, false));
    forall other: nat
      ensures Unused(tokens + reserved, other) == Unused(tokens, other) + (if other == id then calls else 0)
    {
      UnusedConcat(tokens, reserved, other);
      UnusedReserved(calls, id, now, other);
    }
  }

  lemma ShiftsCompose(a: seq<Token>, b: seq<Token>, c: seq<Token>, id: nat, change: int)
    requires Shifts(a, b, 0, 0) && Shifts(b, c, id, change)
    ensures Shifts(a, c, id, change)
  {
  }

  lemma ShiftsStarted(tokens: seq<Token>, at: nat, now: real)
    requires at < |tokens| && !tokens[at].started
    ensures Shifts(tokens, tokens[at := Token(tokens[at].id, now, true)], tokens[at].id, -1)
  {
    forall other: nat
      ensures Unused(tokens[at := Token(tokens[at].id, now, true)], other)
              == Unused(tokens, other) + (if other == tokens[at].id then -1 else 0)
    {
      UnusedStarted(tokens, at, now, other);
    }
  }

  /** Token identities: unstarted ones belong to live reservations, started ones to admissions that entered. */
  predicate OwnersOk(tokens: seq<Token>, live: set<nat>, entered: set<nat>, nextId: nat)
  {
    forall t <- tokens :: t.id < nextId && (!t.started ==> t.id in live) && (t.started && t.id in live ==> t.id in entered)
  }

  /** The stages are disjoint and the counters and permits count them. */
  ghost predicate QueueShape(
    queued: set<nat>, granted: set<nat>, entered: set<nat>,
    permits: nat, active: nat, pending: nat, maxActive: nat, maxPending: nat)
  {
    && granted <= queued && queued !! entered
    && active == |entered| && pending == |queued|
    && permits + |granted| + |entered| == maxActive
    && active + pending <= maxActive + maxPending
  }

  /** Every reservation's number was handed out before `nextId`. */
  predicate Issued(ids: set<nat>, nextId: nat)
  {
    forall id <- ids :: id < nextId
  }

  lemma IssuedFewer(ids: set<nat>, fewer: set<nat>, nextId: nat)
    requires Issued(ids, nextId) && fewer <= ids
    ensures Issued(fewer, nextId)
  {
  }

  /**
   A fresh reservation on top of a pruned list: books and owners stay right, and it may start the
   calls it asked for.
   */
  lemma TokensReserved(kept: seq<Token>, calls: nat, id: nat, now: real,
                       starts: seq<real>, clock: real, from: real, limit: nat, live: set<nat>, entered: set<nat>)
    requires Books(kept, starts, clock, from, limit) && |kept| + calls <= limit
    requires OwnersOk(kept, live, entered, id)
    ensures var after := kept + seq(calls, _ => Token(id, now, false));
            && Books(after, starts, clock, from, limit) && OwnersOk(after, live + {id}, entered, id + 1)
            && Unused(after, id) == calls && Shifts(kept, after, id, calls)
  {
    hide Books, Kept, Shifts, Unused;
    var reserved := seq(calls, _ => Token(id, now, false));
    NoneUnused(kept, id);
    UnusedConcat(kept, reserved, id);
    UnusedReserved(calls, id, now, id);
    ShiftsReserved(kept, calls, id, now);
    BooksReserved(kept, reserved, starts, clock, from, limit);
  }

  /** A new task joins the queue. */
  lemma QueueJoined(
    queued: set<nat>, granted: set<nat>, entered: set<nat>,
    permits: nat, active: nat, pending: nat, maxActive: nat, maxPending: nat, id: nat)
    requires QueueShape(queued, granted, entered, permits, active, pending, maxActive, maxPending)
    requires active + pending < maxActive + maxPending && Issued(queued + entered, id)
    ensures id !in queued + entered + granted && queued + {id} + entered == queued + entered + {id}
    ensures QueueShape(queued + {id}, granted, entered, permits, active, pending + 1, maxActive, maxPending)
    ensures Issued(queued + {id} + entered, id + 1)
  {
  }

  /** A queued task leaves, giving back the permit it may have been granted. */
  lemma QueueLeft(
    queued: set<nat>, granted: set<nat>, entered: set<nat>,
    permits: nat, active: nat, pending: nat, maxActive: nat, maxPending: nat, id: nat)
    requires QueueShape(queued, granted, entered, permits, active, pending, maxActive, maxPending)
    requires id in queued
    ensures pending >= 1 && id !in queued - {id} + entered && queued - {id} + entered + {id} == queued + entered
    ensures QueueShape(queued - {id}, granted - {id}, entered, if id in granted then permits + 1 else permits,
                       active, pending - 1, maxActive, maxPending)
  {
    assert id !in granted ==> granted - {id} == granted;
  }

  /** A granted task enters. */
  lemma QueueEntered(
    queued: set<nat>, granted: set<nat>, entered: set<nat>,
    permits: nat, active: nat, pending: nat, maxActive: nat, maxPending: nat, id: nat)
    requires QueueShape(queued, granted, entered, permits, active, pending, maxActive, maxPending)
    requires id in granted
    ensures pending >= 1 && id !in entered && id in queued && (queued - {id}) + (entered + {id}) == queued + entered
    ensures QueueShape(queued - {id}, granted - {id}, entered + {id}, permits, active + 1, pending - 1, maxActive, maxPending)
  {
  }

  lemma OwnersEntered(tokens: seq<Token>, live: set<nat>, entered: set<nat>, nextId: nat, id: nat)
    requires OwnersOk(tokens, live, entered, nextId)
    ensures OwnersOk(tokens, live, entered + {id}, nextId)
  {
  }

  lemma OwnersReleased(tokens: seq<Token>, live: set<nat>, entered: set<nat>, nextId: nat, id: nat)
    requires OwnersOk(tokens, live, entered, nextId)
    ensures OwnersOk(Kept(tokens, NotOf(id)), live - {id}, entered, nextId)
  {
  }

  lemma OwnersLeft(tokens: seq<Token>, live: set<nat>, entered: set<nat>, nextId: nat, id: nat)
    requires OwnersOk(tokens, live, entered, nextId)
    ensures OwnersOk(Kept(tokens, UsedOrNotOf(id)), live - {id}, entered - {id}, nextId)
  {
  }

  /** A task inside leaves, giving back its permit. */
  lemma QueueReleased(
    queued: set<nat>, granted: set<nat>, entered: set<nat>,
    permits: nat, active: nat, pending: nat, maxActive: nat, maxPending: nat, id: nat)
    requires QueueShape(queued, granted, entered, permits, active, pending, maxActive, maxPending)
    requires id in entered
    ensures active >= 1 && queued + (entered - {id}) == queued + entered - {id}
    ensures QueueShape(queued, granted, entered - {id}, permits + 1, active - 1, pending, maxActive, maxPending)
  {
  }

  class ChannelRuntime {
    const maxActive: nat
    const maxPending: nat
    const callsPerMinute: nat
    /** The semaphore's free permits. */
    var permits: nat
    var active: nat
    var pending: nat
    var highWater: nat
    var nextId: nat
    var budgetTokens: seq<Token>
    /** The event loop's view: reservations queued, those granted a permit but not resumed, and those inside. */
    var queued: set<nat>
    var granted: set<nat>
    var entered: set<nat>
    /** The latest reading of the monotone clock. */
    var clock: real
    /** Every model call's start, and the latest pruning cutoff. */
    ghost var starts: seq<real>
    ghost var prunedTo: real

    ghost function LiveIds(): set<nat>
      reads `queued, `entered
    {
      queued + entered
    }

    ghost predicate QueueOk()
      reads `queued, `granted, `entered, `permits, `active, `pending, `highWater, `nextId
    {
      && QueueShape(queued, granted, entered, permits, active, pending, maxActive, maxPending)
      && active + pending <= highWater <= maxActive + maxPending
      && Issued(LiveIds(), nextId)
    }

    ghost predicate BudgetOk()
      reads `budgetTokens, `queued, `entered, `nextId, `clock, `starts, `prunedTo
    {
      && OwnersOk(budgetTokens, LiveIds(), entered, nextId)
      && Books(budgetTokens, starts, clock, prunedTo, callsPerMinute)
    }

    ghost predicate Valid()
      reads this
    {
      0 < maxActive && 0 < callsPerMinute && QueueOk() && BudgetOk()
    }

    /** The bounds that hold in every reachable state. */
    lemma Bounds()
      requires Valid()
      ensures active <= maxActive && active + pending <= maxActive + maxPending
      ensures LiveIds() == {} ==> forall t <- budgetTokens :: t.started
      ensures forall from: real :: StartsWithin(starts, from) <= callsPerMinute
    {
      forall from: real ensures StartsWithin(starts, from) <= callsPerMinute {
        EveryWindowWithinBudget(starts, callsPerMinute, from);
      }
    }

    /** With nobody inside, everything is free and every token left is a call that started. */
    lemma Idle()
      requires Valid() && LiveIds() == {}
      ensures queued == entered == granted == {} && active == pending == 0 && permits == maxActive >= 1
      ensures forall t <- budgetTokens :: t.started
    {
      assert queued == {} && entered == {};
    }

    constructor (maxActive: nat, maxPending: nat, callsPerMinute: nat, now: real)
      requires 1 <= maxActive && 1 <= callsPerMinute
      ensures Valid() && starts == [] && LiveIds() == {} && clock == now && budgetTokens == []
      ensures this.maxActive == maxActive && this.maxPending == maxPending && this.callsPerMinute == callsPerMinute
    {
      this.maxActive, this.maxPending, this.callsPerMinute := maxActive, maxPending, callsPerMinute;
      permits, active, pending, highWater, nextId, budgetTokens := maxActive, 0, 0, 0, 1, [];
      queued, granted, entered := {}, {}, {};
      starts, clock, prunedTo := [], now, now - WINDOW;
    }

    /** `_prune_budget`. */
    method PruneBudget(now: real)
      requires Valid() && now >= clock
      modifies `budgetTokens, `clock, `prunedTo
      ensures Valid() && clock == now
      ensures budgetTokens == Kept(old(budgetTokens), InWindow(now - WINDOW))
      ensures Shifts(old(budgetTokens), budgetTokens, 0, 0)
    {
      ShiftsPruned(budgetTokens, now - WINDOW, 0);
      var keep := InWindow(now - WINDOW);
      BooksKept(budgetTokens, keep, starts, clock, prunedTo, callsPerMinute, now, now - WINDOW);
      hide Books;
      budgetTokens := Kept(budgetTokens, keep);
      clock, prunedTo := now, now - WINDOW;
    }

    /** The accepting end of `reserve`. */
    method Enqueue(calls: nat, now: real) returns (id: nat)
      requires Valid() && active + pending < maxActive + maxPending && |budgetTokens| + calls <= callsPerMinute
      modifies `budgetTokens, `nextId, `pending, `queued, `highWater
      ensures Valid() && id == old(nextId) && nextId == id + 1
      ensures budgetTokens == old(budgetTokens) + seq(calls, _ => Token(id, now, false))
      ensures Unused(budgetTokens, id) == calls && Shifts(old(budgetTokens), budgetTokens, id, calls)
      ensures id !in old(LiveIds()) + granted && queued == old(queued) + {id} && pending == old(pending) + 1
      ensures highWater == Max(old(highWater), active + pending)
    {
      hide Books, Kept, Shifts, Unused, OwnersOk, QueueShape, Issued;
      TokensReserved(budgetTokens, calls, nextId, now, starts, clock, prunedTo, callsPerMinute, LiveIds(), entered);
      id := JoinQueue();
      budgetTokens := budgetTokens + seq(calls, _ => Token(id, now, false));
    }

    /** The counters of `reserve`. */
    method JoinQueue() returns (id: nat)
      requires QueueOk() && active + pending < maxActive + maxPending
      modifies `nextId, `pending, `queued, `highWater
      ensures QueueOk() && id == old(nextId) && nextId == id + 1 && LiveIds() == old(LiveIds()) + {id}
      ensures id !in old(LiveIds()) + granted && queued == old(queued) + {id} && pending == old(pending) + 1
      ensures highWater == Max(old(highWater), active + pending)
    {
      hide QueueShape, Issued;
      id := nextId;
      QueueJoined(queued, granted, entered, permits, active, pending, maxActive, maxPending, id);
      nextId := nextId + 1;
      pending := pending + 1;
      queued := queued + {id};
      highWater := Max(highWater, active + pending);
    }

    /** `reserve`: capacity and every call token are committed before the first await. */
    method Reserve(calls: nat, now: real) returns (r: Option<nat>, why: Option<Rejection>)
      requires Valid() && now >= clock && calls >= 1
      modifies `budgetTokens, `clock, `prunedTo, `nextId, `pending, `queued, `highWater
      ensures Valid() && clock == now
      ensures var kept := Kept(old(budgetTokens), InWindow(now - WINDOW));
              && (why == Some(QueueFull) <==> old(active + pending) >= maxActive + maxPending)
              && (why == Some(LlmBudget) <==> old(active + pending) < maxActive + maxPending && |kept| + calls > callsPerMinute)
              && (r.Some? <==> why.None?)
              && budgetTokens == kept + (if r.Some? then seq(calls, _ => Token(r.value, now, false)) else [])
      ensures r.Some? ==> r.value == old(nextId) && nextId == r.value + 1 && Unused(budgetTokens, r.value) == calls
      ensures r.None? ==> nextId == old(nextId)
      ensures r.Some? ==> r.value !in old(LiveIds()) + granted && queued == old(queued) + {r.value} && pending == old(pending) + 1
      ensures Shifts(old(budgetTokens), budgetTokens, if r.Some? then r.value else 0, if r.Some? then calls else 0)
      ensures r.None? ==> queued == old(queued) && pending == old(pending)
      ensures highWater == if r.Some? then Max(old(highWater), active + pending) else old(highWater)
    {
      hide Books, Kept, Shifts, Unused, OwnersOk, QueueShape, Issued;
      PruneBudget(now);
      if active + pending >= maxActive + maxPending { return None, Some(QueueFull); }
      if |budgetTokens| + calls > callsPerMinute { return None, Some(LlmBudget); }
      var id := Enqueue(calls, now);
      ShiftsCompose(old(budgetTokens), Kept(old(budgetTokens), InWindow(now - WINDOW)), budgetTokens, id, calls);
      return Some(id), None;
    }

    /** `budget_remaining`. */
    method BudgetRemaining(now: real) returns (n: nat)
      requires Valid() && now >= clock
      modifies `budgetTokens, `clock, `prunedTo
      ensures Valid() && clock == now && n == callsPerMinute - |budgetTokens|
      ensures Shifts(old(budgetTokens), budgetTokens, 0, 0)
      ensures budgetTokens == Kept(old(budgetTokens), InWindow(now - WINDOW))
    {
      PruneBudget(now);
      n := Max(0, callsPerMinute - |budgetTokens|);
    }

    /** The semaphore hands a permit to a queued task, which has not resumed yet. */
    method Grant(id: nat)
      requires Valid() && id in queued - granted && permits > 0
      modifies `permits, `granted
      ensures Valid() && granted == old(granted) + {id}
    {
      hide Books, OwnersOk;
      permits := permits - 1;
      granted := granted + {id};
      assert |granted| == |old(granted)| + 1;
    }

    /** The granted task resumes: `_activate`. */
    method Activate(id: nat)
      requires Valid() && id in granted
      modifies `active, `pending, `highWater, `queued, `granted, `entered
      ensures Valid() && LiveIds() == old(LiveIds()) && entered == old(entered) + {id}
      ensures queued == old(queued) - {id} && granted == old(granted) - {id}
      ensures active == old(active) + 1 && pending == old(pending) - 1
      ensures highWater == Max(old(highWater), active + pending)
    {
      hide Books, OwnersOk, QueueShape, Issued;
      OwnersEntered(budgetTokens, LiveIds(), entered, nextId, id);
      Enter(id);
    }

    /** The counters of `_activate`. */
    method Enter(id: nat)
      requires QueueOk() && id in granted
      modifies `active, `pending, `highWater, `queued, `granted, `entered
      ensures QueueOk() && LiveIds() == old(LiveIds()) && entered == old(entered) + {id}
      ensures queued == old(queued) - {id} && granted == old(granted) - {id}
      ensures active == old(active) + 1 && pending == old(pending) - 1
      ensures highWater == Max(old(highWater), active + pending)
    {
      hide QueueShape, Issued;
      QueueEntered(queued, granted, entered, permits, active, pending, maxActive, maxPending, id);
      pending := Max(0, pending - 1);
      active := active + 1;
      queued, granted, entered := queued - {id}, granted - {id}, entered + {id};
      highWater := Max(highWater, active + pending);
    }

    /** `_release_budget`: a reservation that never entered loses all its tokens. */
    method ReleaseBudget(id: nat)
      requires OwnersOk(budgetTokens, LiveIds() + {id}, entered, nextId) && id !in LiveIds()
      requires Books(budgetTokens, starts, clock, prunedTo, callsPerMinute)
      modifies `budgetTokens
      ensures budgetTokens == Kept(old(budgetTokens), NotOf(id))
      ensures OwnersOk(budgetTokens, LiveIds(), entered, nextId)
      ensures Books(budgetTokens, starts, clock, prunedTo, callsPerMinute)
      ensures Shifts(old(budgetTokens), budgetTokens, id, 0 - Unused(old(budgetTokens), id))
    {
      ShiftsDropped(budgetTokens, NotOf(id), id);
      BooksKept(budgetTokens, NotOf(id), starts, clock, prunedTo, callsPerMinute, clock, prunedTo);
      OwnersReleased(budgetTokens, LiveIds() + {id}, entered, nextId, id);
      assert LiveIds() + {id} - {id} == LiveIds();
      budgetTokens := Kept(budgetTokens, NotOf(id));
    }

    /** `_cancel_wait`, with the semaphore taking back a permit already granted. */
    method CancelWait(id: nat)
      requires Valid() && id in queued
      modifies `permits, `pending, `budgetTokens, `queued, `granted
      ensures Valid() && queued == old(queued) - {id} && granted == old(granted) - {id}
      ensures pending == old(pending) - 1
      ensures budgetTokens == Kept(old(budgetTokens), NotOf(id))
      ensures Shifts(old(budgetTokens), budgetTokens, id, 0 - Unused(old(budgetTokens), id))
    {
      hide Books, OwnersOk, Shifts, Kept, Unused, QueueShape, Issued;
      LeaveQueue(id);
      ReleaseBudget(id);
    }

    /** The counters and permits of `_cancel_wait`. */
    method LeaveQueue(id: nat)
      requires QueueOk() && id in queued
      modifies `permits, `pending, `queued, `granted
      ensures QueueOk() && queued == old(queued) - {id} && granted == old(granted) - {id}
      ensures pending == old(pending) - 1 && id !in LiveIds() && LiveIds() + {id} == old(LiveIds())
    {
      hide QueueShape, Issued;
      QueueLeft(queued, granted, entered, permits, active, pending, maxActive, maxPending, id);
      var returned := if id in granted then 1 else 0;
      pending, permits := Max(0, pending - 1), permits + returned;
      queued, granted := queued - {id}, granted - {id};
      assert LiveIds() + {id} == old(LiveIds());
      IssuedFewer(old(LiveIds()), LiveIds(), nextId);
    }

    /** `mark_call_started`: consume the reservation's first unused token, immediately before one model call. */
    method MarkCallStarted(id: nat, now: real) returns (ok: bool)
      requires Valid() && now >= clock
      modifies `budgetTokens, `clock, `starts
      ensures Valid()
      ensures ok <==> id in entered && Unused(old(budgetTokens), id) > 0
      ensures ok ==> starts == old(starts) + [now] && clock == now
                     && exists i: nat :: && i < |old(budgetTokens)| && old(budgetTokens)[i].id == id
                                         && !old(budgetTokens)[i].started
                                         && (forall t <- old(budgetTokens)[..i] :: t.id == id ==> t.started)
                                         && budgetTokens == old(budgetTokens)[i := Token(id, now, true)]
      ensures Shifts(old(budgetTokens), budgetTokens, id, if ok then -1 else 0)
      ensures !ok ==> budgetTokens == old(budgetTokens) && starts == old(starts) && clock == old(clock)
    {
      hide Books;
      if id !in entered { return false; }
      var updated: seq<Token>, consumed := [], false;
      ghost var at := 0;
      for i := 0 to |budgetTokens|
        invariant |updated| == i
        invariant !consumed ==> updated == budgetTokens[..i] && forall t <- budgetTokens[..i] :: t.id == id ==> t.started
        invariant consumed ==> at < i && budgetTokens[at].id == id && !budgetTokens[at].started
                               && (forall t <- budgetTokens[..at] :: t.id == id ==> t.started)
                               && updated == budgetTokens[..i][at := Token(id, now, true)]
      {
        var t := budgetTokens[i];
        if t.id == id && !t.started && !consumed {
          updated := updated + [Token(t.id, now, true)];
          consumed, at := true, i;
        } else {
          updated := updated + [t];
        }
      }
      if !consumed {
        assert budgetTokens[..|budgetTokens|] == budgetTokens;
        NoneUnused(budgetTokens, id);
        return false;
      }
      assert updated == budgetTokens[at := Token(id, now, true)];
      ShiftsStarted(budgetTokens, at, now);
      BooksStarted(budgetTokens, at, starts, clock, prunedTo, callsPerMinute, now);
      clock := now;
      budgetTokens := updated;
      starts := starts + [now];
      return true;
    }

    /** `_release_active`: unused tokens go, started calls stay on record, the permit returns. */
    method ReleaseActive(id: nat)
      requires Valid() && id in entered
      modifies `permits, `active, `budgetTokens, `entered
      ensures Valid() && entered == old(entered) - {id} && LiveIds() == old(LiveIds()) - {id}
      ensures active == old(active) - 1 && permits == old(permits) + 1
      ensures budgetTokens == Kept(old(budgetTokens), UsedOrNotOf(id))
      ensures Shifts(old(budgetTokens), budgetTokens, id, 0 - Unused(old(budgetTokens), id))
    {
      hide Books, OwnersOk, QueueShape, Issued, Shifts, Kept, Unused;
      OwnersLeft(budgetTokens, LiveIds(), entered, nextId, id);
      ghost var live, inside := LiveIds(), entered;
      DropUnused(id);
      LeaveActive(id);
      assert LiveIds() == live - {id} && entered == inside - {id};
    }

    /** The token filter of `_release_active`. */
    method DropUnused(id: nat)
      requires Books(budgetTokens, starts, clock, prunedTo, callsPerMinute)
      modifies `budgetTokens
      ensures Books(budgetTokens, starts, clock, prunedTo, callsPerMinute)
      ensures budgetTokens == Kept(old(budgetTokens), UsedOrNotOf(id))
      ensures Shifts(old(budgetTokens), budgetTokens, id, 0 - Unused(old(budgetTokens), id))
    {
      hide Books, Shifts, Unused, Kept;
      var keep := UsedOrNotOf(id);
      ShiftsDropped(budgetTokens, keep, id);
      BooksKept(budgetTokens, keep, starts, clock, prunedTo, callsPerMinute, clock, prunedTo);
      budgetTokens := Kept(budgetTokens, keep);
    }

    /** The counter and the permit of `_release_active`. */
    method LeaveActive(id: nat)
      requires QueueOk() && id in entered
      modifies `permits, `active, `entered
      ensures QueueOk() && entered == old(entered) - {id} && LiveIds() == old(LiveIds()) - {id}
      ensures active == old(active) - 1 && permits == old(permits) + 1
    {
      hide QueueShape, Issued;
      QueueReleased(queued, granted, entered, permits, active, pending, maxActive, maxPending, id);
      IssuedFewer(LiveIds(), LiveIds() - {id}, nextId);
      active := Max(0, active - 1);
      permits := permits + 1;
      entered := entered - {id};
    }
  }

  // ---------------------------------------------------------------- two full budgets in one closed minute

  predicate Until(tokens: seq<Token>, now: real) { forall t <- tokens :: t.at <= now }

  lemma {:induction false} NoneInWindow(tokens: seq<Token>, now: real)
    requires Until(tokens, now - WINDOW) && forall t <- tokens :: t.started
    ensures Kept(tokens, InWindow(now - WINDOW)) == []
  {
    if tokens != [] { NoneInWindow(tokens[1..], now); }
  }

  lemma StillUntil(tokens: seq<Token>, after: seq<Token>, keep: Token -> bool, now: real)
    requires Until(tokens, now) && after == Kept(tokens, keep)
    ensures Until(after, now)
  {
  }

  /** One task alone in the runtime reserves a whole budget and enters. */
  method EnterAlone(runtime: ChannelRuntime, now: real) returns (id: nat)
    requires runtime.Valid() && runtime.LiveIds() == {} && runtime.clock <= now
        && Until(runtime.budgetTokens, now - WINDOW)
    modifies runtime
    ensures runtime.Valid() && runtime.entered == {id} && runtime.queued == {} && runtime.clock == now
    ensures runtime.starts == old(runtime.starts) && Until(runtime.budgetTokens, now)
    ensures Unused(runtime.budgetTokens, id) == runtime.callsPerMinute
  {
    hide Kept, Books, OwnersOk, Unused, QueueShape, Issued;
    runtime.Idle();
    NoneInWindow(runtime.budgetTokens, now);
    var reserved, why := runtime.Reserve(runtime.callsPerMinute, now);
    assert why.Some? ==> why.value == QueueFull || why.value == LlmBudget;
    id := reserved.value;
    runtime.Grant(id);
    runtime.Activate(id);
    assert runtime.entered == {id};
  }

  /** It starts all the calls it reserved at once, and leaves. */
  method FillBudget(runtime: ChannelRuntime, now: real)
    requires runtime.Valid() && runtime.LiveIds() == {} && runtime.clock <= now
        && Until(runtime.budgetTokens, now - WINDOW)
    modifies runtime
    ensures runtime.Valid() && runtime.LiveIds() == {} && runtime.clock == now && Until(runtime.budgetTokens, now)
    ensures runtime.starts == old(runtime.starts) + seq(runtime.callsPerMinute, _ => now)
  {
    hide Kept, Books, OwnersOk, Unused, QueueShape, Issued;
    var id := EnterAlone(runtime, now);
    var n := runtime.callsPerMinute;
    for i := 0 to n
      invariant runtime.Valid() && runtime.entered == {id} && runtime.queued == {} && runtime.clock == now
      invariant Unused(runtime.budgetTokens, id) == n - i && Until(runtime.budgetTokens, now)
      invariant runtime.starts == old(runtime.starts) + seq(i, _ => now)
    {
      var _ := runtime.MarkCallStarted(id, now);
      assert seq(i + 1, _ => now) == seq(i, _ => now) + [now];
    }
    ghost var tokens := runtime.budgetTokens;
    runtime.ReleaseActive(id);
    StillUntil(tokens, runtime.budgetTokens, UsedOrNotOf(id), now);
  }

  /**
   The window is half-open, so a closed minute can hold two budgets: one ending at its first second
   and one beginning at its last, with every call under its own reserved token.
   */
  method ClosedMinuteExceedsBudget(maxActive: nat, maxPending: nat, limit: nat) returns (runtime: ChannelRuntime)
    requires 1 <= maxActive && 1 <= limit
    ensures fresh(runtime) && runtime.Valid() && runtime.callsPerMinute == limit
    ensures |runtime.starts| == 2 * limit && forall t <- runtime.starts :: 0.0 <= t <= 60.0
  {
    runtime := new ChannelRuntime(maxActive, maxPending, limit, 0.0);
    FillBudget(runtime, 0.0);
    FillBudget(runtime, 60.0);
  }
}
