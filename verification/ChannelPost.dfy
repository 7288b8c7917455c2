/** One channel post from reservation to release, among any number of other tasks. */
module ChannelPost {
  import opened Text
  import opened TelegramText
  import opened ChannelRuntime

  const LLM_INPUT_CHAR_LIMIT := 2000

  const EDIT_BUDGET_HEADROOM_CALLS := 2

  function Min(a: int, b: int): int { if a <= b then a else b }

  /** What a translation stage yields; `NoReservation` is the error the reservation exists to rule out. */
  datatype Stage = Translated | ContentFailure | OtherFailure | NoReservation

  /**
   The call tokens a post reserves: `required_calls` in `channel_post_handler`.  A short post needs one, or
   a second for the plain fallback where the budget has it; a long one no more than its length calls for.
   */
  function RequiredCalls(plain: string, html: bool, callsPerMinute: nat): (n: nat)
    requires callsPerMinute >= 1
    ensures n >= 1
    ensures |plain| <= 2000 ==> n <= callsPerMinute && (n == 1 || (n == 2 && html)) && (html && callsPerMinute > 1 ==> n == 2)
    ensures |plain| > 2000 ==> 1500 * (n - 1) <= Units(plain)
  {
    if |plain| <= LLM_INPUT_CHAR_LIMIT then
      if !html then 1 else if callsPerMinute < 2 then callsPerMinute else 2
    else
      SplitGood(plain, LLM_INPUT_CHAR_LIMIT);
      NoMoreChunks(Split(plain, LLM_INPUT_CHAR_LIMIT));
      |Split(plain, LLM_INPUT_CHAR_LIMIT)|
  }

  /** Chunks three quarters full are not many. */
  lemma {:induction false} NoMoreChunks(chunks: seq<string>)
    requires chunks != [] && forall i :: 0 <= i < |chunks| - 1 ==> Units(chunks[i]) >= 1500
    ensures 1500 * (|chunks| - 1) <= Units(Concat(chunks))
  {
    hide Units;
    if |chunks| > 1 {
      NoMoreChunks(chunks[1..]);
      UnitsConcat(chunks[0], Concat(chunks[1..]));
    }
  }

  /** Filtering twice at one moment is filtering once. */
  lemma {:induction false} KeptAgain(tokens: seq<Token>, keep: Token -> bool)
    ensures Kept(Kept(tokens, keep), keep) == Kept(tokens, keep)
  {
    if tokens != [] {
      KeptAgain(tokens[1..], keep);
      var rest := Kept(tokens[1..], keep);
      if keep(tokens[0]) {
        assert ([tokens[0]] + rest)[1..] == rest;
      } else {
        assert [] + rest == rest;
      }
    }
  }

  /**
   The admission of a post.  New posts outrank edits: an edit yields when it would eat into the
   headroom, but never on an empty window, however small the budget.
   */
  method Admit(rt: ChannelRuntime, required: nat, isEdit: bool, now: real, later: real)
    returns (reserved: Option<nat>, why: Option<Rejection>, yielded: bool)
    requires rt.Valid() && 1 <= required && rt.clock <= now <= later
    modifies rt
    ensures rt.Valid()
    ensures var left := rt.callsPerMinute - |Kept(old(rt.budgetTokens), InWindow(now - WINDOW))|;
            && (yielded <==> isEdit && left < Min(required + EDIT_BUDGET_HEADROOM_CALLS, rt.callsPerMinute))
            && (left == rt.callsPerMinute ==> !yielded)
    ensures rt.permits == old(rt.permits) && rt.clock == (if yielded then now else later)
    ensures yielded ==> reserved.None? && why.None? && rt.queued == old(rt.queued)
    ensures now == later && !yielded ==>
              (reserved.Some? <==>
                 && old(rt.active + rt.pending) < rt.maxActive + rt.maxPending
                 && |Kept(old(rt.budgetTokens), InWindow(now - WINDOW))| + required <= rt.callsPerMinute)
    ensures !yielded ==> (reserved.Some? <==> why.None?)
    ensures reserved.Some? && isEdit ==>
              rt.callsPerMinute - |rt.budgetTokens| >= Min(EDIT_BUDGET_HEADROOM_CALLS, rt.callsPerMinute - required)
    ensures reserved.Some? ==>
              && reserved.value < rt.nextId && reserved.value in rt.queued - rt.granted && reserved.value !in rt.entered
              && Unused(rt.budgetTokens, reserved.value) == required
  {
    hide Books, OwnersOk, QueueShape, ChannelRuntime.QueueOk, ChannelRuntime.BudgetOk;
    reserved, why, yielded := None, None, false;
    if isEdit {
      var remaining := rt.BudgetRemaining(now);
      if remaining < Min(required + EDIT_BUDGET_HEADROOM_CALLS, rt.callsPerMinute) { return None, None, true; }
      KeptAgain(old(rt.budgetTokens), InWindow(now - WINDOW));
    }
    assert now == later ==>
             Kept(rt.budgetTokens, InWindow(later - WINDOW)) == Kept(old(rt.budgetTokens), InWindow(now - WINDOW));
    reserved, why := rt.Reserve(required, later);
    assert why.Some? ==> why.value == QueueFull || why.value == LlmBudget;
  }

  /** Where the post's own reservation stands is nobody else's business. */
  twostate predicate Undisturbed(rt: ChannelRuntime, id: nat)
    reads rt
  {
    && (id in rt.queued <==> old(id in rt.queued)) && (id in rt.granted <==> old(id in rt.granted))
    && (id in rt.entered <==> old(id in rt.entered)) && id < rt.nextId
    && Unused(rt.budgetTokens, id) == Unused(old(rt.budgetTokens), id)
  }

  /** Any number of steps of any other tasks, in any order, at any clock readings. */
  method OtherTasks(rt: ChannelRuntime, id: nat, steps: nat)
    requires rt.Valid() && id < rt.nextId
    modifies rt
    ensures rt.Valid() && Undisturbed(rt, id)
  {
    for step := 0 to steps
      invariant rt.Valid() && Undisturbed(rt, id)
    {
      var kind: int, other: nat, calls: nat, ahead: real := *, *, *, *;
      var now := if ahead > 0.0 then rt.clock + ahead else rt.clock;
      OneOtherStep(rt, id, kind, other, calls, now);
    }
  }

  /** One step of another task. */
  method OneOtherStep(rt: ChannelRuntime, id: nat, kind: int, other: nat, calls: nat, now: real)
    requires rt.Valid() && id < rt.nextId && now >= rt.clock
    modifies rt
    ensures rt.Valid() && Undisturbed(rt, id)
  {
    hide Books, OwnersOk, QueueShape, ChannelRuntime.QueueOk, ChannelRuntime.BudgetOk, Kept;
    if kind == 0 && calls >= 1 {
      var _, _ := rt.Reserve(calls, now);
    } else if kind == 1 {
      var _ := rt.BudgetRemaining(now);
    } else if other != id {
      if kind == 2 && other in rt.queued - rt.granted && rt.permits > 0 {
        rt.Grant(other);
      } else if kind == 3 && other in rt.granted {
        rt.Activate(other);
      } else if kind == 4 && other in rt.queued {
        rt.CancelWait(other);
      } else if kind == 5 {
        var _ := rt.MarkCallStarted(other, now);
      } else if kind == 6 && other in rt.entered {
        rt.ReleaseActive(other);
      }
    }
  }

  /** One translation stage: other tasks run, policy may stop it, and at most one call starts. */
  method RunStage(rt: ChannelRuntime, id: nat, quiet: bool) returns (r: Stage)
    requires rt.Valid() && id in rt.entered && Unused(rt.budgetTokens, id) >= 1
    modifies rt
    ensures rt.Valid() && id in rt.entered && r != NoReservation
    ensures Unused(rt.budgetTokens, id) >= Unused(old(rt.budgetTokens), id) - 1
    ensures quiet ==> r == Translated
  {
    var steps: nat, answeredLocally: bool, stopped: bool, ahead: real := *, *, *, *;
    OtherTasks(rt, id, steps);
    if answeredLocally { return Translated; }
    if stopped && !quiet { return OtherFailure; }
    var ok := rt.MarkCallStarted(id, if ahead > 0.0 then rt.clock + ahead else rt.clock);
    if !ok { return NoReservation; }
    steps := *;
    OtherTasks(rt, id, steps);
    r := *;
    if quiet || r == NoReservation { r := Translated; }
  }

  /** `_translate_channel_input`: its calls never outrun the reservation. */
  method TranslateChannelInput(rt: ChannelRuntime, id: nat, plain: string, html: bool, allowPlainFallback: bool,
      quiet: bool)
    returns (r: Stage)
    requires rt.Valid() && id in rt.entered
    requires Unused(rt.budgetTokens, id) == RequiredCalls(plain, html, rt.callsPerMinute)
    requires allowPlainFallback <==> html && RequiredCalls(plain, html, rt.callsPerMinute) >= 2
    modifies rt
    ensures rt.Valid() && id in rt.entered && r != NoReservation
    ensures quiet ==> r == Translated
  {
    if |plain| <= LLM_INPUT_CHAR_LIMIT {
      r := RunStage(rt, id, quiet);
      if html && r == ContentFailure && allowPlainFallback { r := RunStage(rt, id, quiet); }
      return;
    }
    var chunks := SplitTelegramText(plain, LLM_INPUT_CHAR_LIMIT);
    r := Translated;
    for i := 0 to |chunks|
      invariant rt.Valid() && id in rt.entered && r != NoReservation
      invariant Unused(rt.budgetTokens, id) >= |chunks| - i
      invariant quiet ==> r == Translated
    {
      r := RunStage(rt, id, quiet);
      if r != Translated { return; }
    }
  }

  /** The wait for the semaphore, which a cancellation or a full house ends with nothing left reserved. */
  method WaitTurn(rt: ChannelRuntime, id: nat, quiet: bool) returns (entered: bool)
    requires rt.Valid() && id < rt.nextId && id in rt.queued - rt.granted && id !in rt.entered
    modifies rt
    ensures rt.Valid()
    ensures entered ==> id in rt.entered && Unused(rt.budgetTokens, id) == Unused(old(rt.budgetTokens), id)
    ensures !entered ==> id !in rt.queued + rt.entered && Unused(rt.budgetTokens, id) == 0
    ensures quiet && old(rt.permits) > 0 ==> entered
  {
    hide Books, OwnersOk, QueueShape, ChannelRuntime.QueueOk, ChannelRuntime.BudgetOk, Kept, Unused;
    var steps: nat, cancelled: bool := *, *;
    if !quiet { OtherTasks(rt, id, steps); }
    if (cancelled && !quiet) || rt.permits == 0 {
      rt.CancelWait(id);
      return false;
    }
    rt.Grant(id);
    steps := *;
    OtherTasks(rt, id, steps);
    rt.Activate(id);
    entered := true;
  }

  /**
   A whole post: reserve, wait for the semaphore or be cancelled, be turned away or translate,
   release.  Whatever the other tasks do, no call lacks its token and the reservation is gone at
   the end.  When `quiet`, nobody else is heard of before the task is inside, nothing is cancelled or
   turned away, the clock stands still up to the reservation and every stage succeeds: then a post is
   translated exactly when there is room for it.
   */
  method HandlePost(rt: ChannelRuntime, plain: string, html: bool, isEdit: bool, quiet: bool)
          returns (reserved: Option<nat>, r: Stage)
    requires rt.Valid()
    modifies rt
    ensures quiet && old(rt.permits) > 0 ==>
              (r == Translated <==>
                 && old(rt.active + rt.pending) < rt.maxActive + rt.maxPending
                 && (var left := rt.callsPerMinute - |Kept(old(rt.budgetTokens), InWindow(old(rt.clock) - WINDOW))|;
                     var required := RequiredCalls(plain, html, rt.callsPerMinute);
                     && required <= left
                     && (isEdit ==> Min(required + EDIT_BUDGET_HEADROOM_CALLS, rt.callsPerMinute) <= left)))
    ensures rt.Valid() && r != NoReservation
    ensures reserved.Some? ==> reserved.value !in rt.queued + rt.entered && Unused(rt.budgetTokens, reserved.value) == 0
  {
    hide Books, OwnersOk, QueueShape, Split, ChannelRuntime.QueueOk, ChannelRuntime.BudgetOk, Kept, Unused;
    r := OtherFailure;
    var required := RequiredCalls(plain, html, rt.callsPerMinute);
    var ahead: real, further: real := *, *;
    var now := if ahead > 0.0 && !quiet then rt.clock + ahead else rt.clock;
    var why, yielded;
    reserved, why, yielded := Admit(rt, required, isEdit, now, if further > 0.0 && !quiet then now + further else now);
    if reserved.None? { return; }
    var id := reserved.value;
    var entered := WaitTurn(rt, id, quiet);
    if !entered { return; }
    var turnedAway: bool := *;
    if quiet || !turnedAway { r := TranslateChannelInput(rt, id, plain, html, html && required >= 2, quiet); }
    rt.ReleaseActive(id);
  }
}
