/**
 Updating a post's reply chunks in place: edit what can be edited, send what is missing, delete
 what is left over, and keep track of every reply that stays visible.
 */
module ChannelEdit {
  import opened Text

  /** How an edit was answered, as the code reads the answer; the last is an exception that escapes. */
  datatype EditReply = Edited | Gone | Uneditable | EditError

  /** A deletion that worked or found nothing, or one that reports an error, perhaps after the reply was lost. */
  datatype DeleteReply = Cleared | Refused(lost: bool)

  /** What is asked of the delivery gate and of Telegram. */
  datatype Question = BeforeEdit(id: int) | Editing(id: int) | BeforeDelete(ids: seq<int>) | Deleting(id: int) | BeforeSend | Sending

  /** Telegram and the delivery gate, as answers to the questions of a run by their number. */
  datatype World = World(
    gate: nat -> bool, edit: nat -> EditReply, delete: (nat, int) -> DeleteReply, send: nat -> bool)

  /** A post's working state, and the questions put to the world so far. */
  datatype State = State(
    log: seq<Question>, remaining: seq<int>, remembered: seq<int>, stale: seq<int>,
    visible: map<int, string>, nextId: int, tracked: Option<seq<int>>)

  /** `_edit_reply_chunks`' results; `Raised` is an escaping exception. */
  datatype Outcome = Success | StaleChunksRetained | EditTargetUnavailable | Gated | Raised

  datatype Pass = Applied | Exhausted | Closed | Unavailable | Failed

  /** `_delete_reply_chunks`: the replies whose deletion failed, and what stays visible. */
  function Deleted(w: World, log: seq<Question>, visible: map<int, string>, ids: seq<int>)
    : (r: (seq<int>, map<int, string>, seq<Question>))
    decreases |ids|
  {
    if ids == [] then ([], visible, log)
    else if !w.gate(|log|) then (ids, visible, log + [BeforeDelete(ids)])
    else
      var answer := w.delete(|log| + 1, ids[0]);
      var (failed, after, asked) :=
        Deleted(w, log + [BeforeDelete(ids), Deleting(ids[0])], AfterDelete(answer, visible, ids[0]), ids[1..]);
      (if answer.Cleared? then failed else [ids[0]] + failed, after, asked)
  }

  function AfterDelete(answer: DeleteReply, visible: map<int, string>, id: int): map<int, string>
  {
    if answer.Cleared? || answer.lost then visible - {id} else visible
  }

  /** `remember_many`, which ignores an empty list, or `forget`. */
  function Remember(ids: seq<int>): Option<seq<int>> { if ids == [] then None else Some(ids) }

  /** The inner loop: try the remaining replies until one shows the chunk. */
  function EditPass(w: World, s: State, chunk: string): (r: (Pass, State))
    decreases |s.remaining|, 0
  {
    if s.remaining == [] then (Exhausted, s)
    else
      var id, rest := s.remaining[0], s.remaining[1..];
      if !w.gate(|s.log|) then (Closed, s.(log := s.log + [BeforeEdit(id)]))
      else
        var next := s.(log := s.log + [BeforeEdit(id), Editing(id)], remaining := rest);
        match w.edit(|s.log| + 1)
        case EditError => (Failed, next)
        case Edited => (Applied, next.(visible := s.visible[id := chunk], remembered := s.remembered + [id]))
        case Gone => Missed(w, next.(visible := s.visible - {id}), id, false, chunk)
        case Uneditable => Missed(w, next, id, true, chunk)
  }

  /** The reply could not be edited: it is gone, or to be deleted. */
  function Missed(w: World, s: State, id: int, uneditable: bool, chunk: string): (r: (Pass, State))
    decreases |s.remaining|, 1
  {
    if s.remembered == [] then
      var (failed, after, log) := Deleted(w, s.log, s.visible, (if uneditable then [id] else []) + s.remaining);
      (Unavailable, s.(log := log, visible := after, remaining := [], stale := failed, tracked := Remember(failed)))
    else if uneditable then
      var (failed, after, log) := Deleted(w, s.log, s.visible, [id]);
      EditPass(w, s.(log := log, visible := after, stale := s.stale + failed), chunk)
    else
      EditPass(w, s, chunk)
  }

  /** The `else` of the inner loop: no reply is left, so a new one is sent and remembered. */
  function Sent(w: World, s: State, chunk: string): (r: (Pass, State))
  {
    if !w.gate(|s.log|) then (Closed, s.(log := s.log + [BeforeSend]))
    else if !w.send(|s.log| + 1) then (Failed, s.(log := s.log + [BeforeSend, Sending]))
    else
      var remembered := s.remembered + [s.nextId];
      (Applied, s.(log := s.log + [BeforeSend, Sending], visible := s.visible[s.nextId := chunk],
                   nextId := s.nextId + 1, remembered := remembered, tracked := Some(remembered)))
  }

  /** One chunk: edited in place or sent. */
  function ShowChunk(w: World, s: State, chunk: string): (r: (Pass, State))
  {
    var (pass, after) := EditPass(w, s, chunk);
    if pass == Exhausted then Sent(w, after, chunk) else (pass, after)
  }

  /** After the last chunk: delete the replies nobody needs, then write the index. */
  function Finish(w: World, s: State): (r: (Outcome, State))
  {
    var (failed, after, log) := Deleted(w, s.log, s.visible, s.remaining);
    var stale := s.stale + failed;
    (if stale == [] then Success else StaleChunksRetained,
     s.(log := log, visible := after, remaining := [], stale := stale, tracked := Remember(s.remembered + stale)))
  }

  /** The whole edit from some chunk on. */
  function EditFrom(w: World, s: State, chunks: seq<string>): (r: (Outcome, State))
    decreases |chunks|
  {
    if chunks == [] then Finish(w, s)
    else
      var (pass, after) := ShowChunk(w, s, chunks[0]);
      match pass
      case Applied => EditFrom(w, after, chunks[1..])
      case Closed => (Gated, after)
      case Unavailable => (EditTargetUnavailable, after)
      case Exhausted => (Raised, after)
      case Failed => (Raised, after)
  }

  // ---------------------------------------------------------------- what an edit promises

  /** How often an id occurs in a run's lists. */
  function Pieces(s: State): multiset<int>
  {
    multiset(s.remembered) + multiset(s.remaining) + multiset(s.stale)
  }

  /** The bot's own replies to the post: those it tracked, and those sent since id `first` was next. */
  predicate Ours(id: int, existing: seq<int>, first: int) { id in existing || id >= first }

  /** What holds between chunks: `shown` are the chunks done so far. */
  ghost predicate Inv(s: State, shown: seq<string>, existing: seq<int>, first: int)
  {
    && (forall id: int :: Pieces(s)[id] <= 1)
    && (forall id <- Pieces(s) :: id < s.nextId) && (forall id <- s.visible.Keys :: id < s.nextId)
    && (forall id <- existing :: id < first)
    && |s.remembered| == |shown|
    && (forall j :: 0 <= j < |shown| ==> s.remembered[j] in s.visible && s.visible[s.remembered[j]] == shown[j])
    && (forall id <- s.visible.Keys :: Ours(id, existing, first) ==> id in Pieces(s))
    && first <= s.nextId && (s.remembered == [] ==> s.stale == [])
    && (if s.nextId == first then s.tracked == Some(existing)
        else s.remaining == [] && s.tracked == Some(s.remembered))
  }

  /** Deletion only removes, only what it was given, and reports everything it leaves visible. */
  lemma {:induction false} DeletedGood(w: World, log: seq<Question>, visible: map<int, string>, ids: seq<int>)
    ensures var (failed, after, _) := Deleted(w, log, visible, ids);
            && multiset(failed) <= multiset(ids)
            && after.Keys <= visible.Keys
            && (forall id <- after.Keys :: after[id] == visible[id])
            && (forall id <- visible.Keys :: id !in ids ==> id in after)
            && (forall id <- ids :: id in after ==> id in failed)
    decreases |ids|
  {
    if ids != [] {
      assert ids == [ids[0]] + ids[1..];
      if w.gate(|log|) {
        var asked := log + [BeforeDelete(ids), Deleting(ids[0])];
        var left := AfterDelete(w.delete(|log| + 1, ids[0]), visible, ids[0]);
        DeletedGood(w, asked, left, ids[1..]);
        var (failed, _, _) := Deleted(w, asked, left, ids[1..]);
        assert multiset([ids[0]] + failed) == multiset{ids[0]} + multiset(failed);
      }
    }
  }

  /**
   A run cut short, by the gate or by an exception, leaves untracked only leftovers, and those only
   once something was sent.
   */
  ghost predicate CutShort(s: State, existing: seq<int>, first: int)
  {
    (forall id <- s.visible.Keys :: id < s.nextId) &&
    if s.nextId == first then s.tracked == Some(existing)
    else s.tracked == Some(s.remembered) && (forall id <- s.stale :: id !in s.remembered)
         && forall id <- s.visible.Keys :: Ours(id, existing, first) ==> id in s.remembered + s.stale
  }

  /** The inner loop keeps the invariant, or prunes a post whose first chunk has nowhere to go. */
  lemma {:induction false} EditPassGood(
    w: World, s: State, chunk: string, shown: seq<string>, existing: seq<int>, first: int)
    requires Inv(s, shown, existing, first)
    ensures var (pass, after) := EditPass(w, s, chunk);
            && (pass == Applied ==> Inv(after, shown + [chunk], existing, first))
            && (pass == Exhausted || pass == Closed ==> Inv(after, shown, existing, first))
            && (pass == Exhausted ==> after.remaining == [])
            && (pass == Unavailable ==> Pruned(after, existing, first))
            && (pass == Failed ==> CutShort(after, existing, first))
    decreases |s.remaining|, 0
  {
    hide Inv, Pieces, Pruned, CutShort;
    if s.remaining != [] {
      var id, rest := s.remaining[0], s.remaining[1..];
      InvAsked(s, s.log + [BeforeEdit(id)], shown, existing, first);
      assert s.remaining == [id] + rest;
      if w.gate(|s.log|) {
        var next := s.(log := s.log + [BeforeEdit(id), Editing(id)], remaining := rest);
        match w.edit(|s.log| + 1)
        case EditError => FailedGood(s, next.log, rest, shown, existing, first);
        case Edited => AppliedGood(s, id, rest, chunk, shown, existing, first);
        case Gone => MissedGood(w, s, next.(visible := s.visible - {id}), id, false, chunk, shown, existing, first);
        case Uneditable => MissedGood(w, s, next, id, true, chunk, shown, existing, first);
      }
    }
  }

  /** While replies are left to try, nothing was sent, and the index is as it was. */
  lemma FailedGood(s: State, log: seq<Question>, rest: seq<int>, shown: seq<string>, existing: seq<int>, first: int)
    requires Inv(s, shown, existing, first) && s.remaining != []
    ensures CutShort(s.(log := log, remaining := rest), existing, first)
  {
  }

  /** The invariant is not about what was asked. */
  lemma InvAsked(s: State, log: seq<Question>, shown: seq<string>, existing: seq<int>, first: int)
    requires Inv(s, shown, existing, first)
    ensures Inv(s.(log := log), shown, existing, first)
  {
    assert Pieces(s.(log := log)) == Pieces(s);
  }

  /** An edited reply moves from the remaining ones to the remembered ones. */
  lemma AppliedGood(s: State, id: int, rest: seq<int>, chunk: string, shown: seq<string>, existing: seq<int>,
          first: int)
    requires Inv(s, shown, existing, first) && s.remaining == [id] + rest
    ensures Inv(s.(log := s.log + [BeforeEdit(id), Editing(id)], remaining := rest, visible := s.visible[id := chunk],
                   remembered := s.remembered + [id]),
                shown + [chunk], existing, first)
  {
    var after := s.(log := s.log + [BeforeEdit(id), Editing(id)], remaining := rest, visible := s.visible[id := chunk],
                    remembered := s.remembered + [id]);
    hide Pieces;
    RememberedElsewhere(s, id, shown, existing, first);
    PiecesMoved(s, after, id, rest);
    forall k <- after.visible.Keys ensures k == id || k in s.visible.Keys {}
    forall j | 0 <= j < |shown| ensures after.remembered[j] in after.visible && after.visible[after.remembered[j]] == shown[j] {
      assert after.remembered[j] == s.remembered[j] != id;
    }
  }

  /** Only replies whose deletion failed stay tracked, and every reply still visible is one of them. */
  ghost predicate Pruned(s: State, existing: seq<int>, first: int)
  {
    s.tracked == (if s.stale == [] then None else Some(s.stale)) && forall id <- s.visible.Keys :: Ours(id, existing, first) ==> id in s.stale
  }

  /** What is left once the first remaining reply could not be edited: it may also be gone. */
  ghost predicate Popped(was: State, s: State, id: int, uneditable: bool)
  {
    && was.remaining == [id] + s.remaining
    && s == was.(log := s.log, remaining := s.remaining, visible := if uneditable then was.visible else was.visible - {id})
  }

  lemma {:induction false} MissedGood(
    w: World, was: State, s: State, id: int, uneditable: bool, chunk: string,
    shown: seq<string>, existing: seq<int>, first: int)
    requires Inv(was, shown, existing, first) && Popped(was, s, id, uneditable)
    ensures var (pass, after) := Missed(w, s, id, uneditable, chunk);
            && (pass == Applied ==> Inv(after, shown + [chunk], existing, first))
            && (pass == Exhausted || pass == Closed ==> Inv(after, shown, existing, first))
            && (pass == Exhausted ==> after.remaining == [])
            && (pass == Unavailable ==> Pruned(after, existing, first))
            && (pass == Failed ==> CutShort(after, existing, first))
    decreases |s.remaining|, 1
  {
    hide Inv, Pieces, Pruned, CutShort;
    if s.remembered == [] {
      FirstChunkGood(w, was, s, id, uneditable, shown, existing, first);
    } else if uneditable {
      var (failed, after, log) := Deleted(w, s.log, s.visible, [id]);
      DeleteOneGood(w, was, s, id, shown, existing, first);
      EditPassGood(w, s.(log := log, visible := after, stale := s.stale + failed), chunk, shown, existing, first);
    } else {
      DroppedGood(was, s.log, s.remaining, id, shown, existing, first);
      EditPassGood(w, s, chunk, shown, existing, first);
    }
  }

  /** With no chunk shown yet, everything is deleted and only failed deletions stay tracked. */
  lemma FirstChunkGood(w: World, was: State, s: State, id: int, uneditable: bool, shown: seq<string>,
          existing: seq<int>, first: int)
    requires Inv(was, shown, existing, first) && Popped(was, s, id, uneditable) && s.remembered == []
    ensures var (failed, after, log) := Deleted(w, s.log, s.visible, (if uneditable then [id] else []) + s.remaining);
            Pruned(s.(log := log, visible := after, remaining := [], stale := failed, tracked := Remember(failed)), existing, first)
  {
    var ids := (if uneditable then [id] else []) + s.remaining;
    DeletedGood(w, s.log, s.visible, ids);
    hide Deleted;
    assert Pieces(was) == multiset{id} + multiset(s.remaining);
    forall k <- s.visible.Keys | Ours(k, existing, first) ensures k in ids { assert k in was.visible.Keys && k in Pieces(was); }
  }

  /** A reply that is gone drops out of the lists. */
  lemma DroppedGood(was: State, log: seq<Question>, rest: seq<int>, id: int, shown: seq<string>, existing: seq<int>,
          first: int)
    requires Inv(was, shown, existing, first) && was.remaining == [id] + rest
    ensures Inv(was.(log := log, remaining := rest, visible := was.visible - {id}), shown, existing, first)
  {
    var s := was.(log := log, remaining := rest, visible := was.visible - {id});
    RememberedElsewhere(was, id, shown, existing, first);
    PiecesOf(was, id, rest);
    PiecesSplit(s, id, Pieces(was));
    hide Pieces;
    forall k <- s.visible.Keys | Ours(k, existing, first) ensures k in Pieces(s) { assert k in was.visible.Keys && k in Pieces(was); }
  }

  /** One that stays joins the leftovers, and may yet have disappeared. */
  lemma RetainedGood(was: State, log: seq<Question>, rest: seq<int>, visible: map<int, string>, id: int,
          shown: seq<string>, existing: seq<int>, first: int)
    requires Inv(was, shown, existing, first) && was.remaining == [id] + rest && was.remembered != []
    requires visible == was.visible || visible == was.visible - {id}
    ensures Inv(was.(log := log, remaining := rest, visible := visible, stale := was.stale + [id]), shown, existing, first)
  {
    var s := was.(log := log, remaining := rest, visible := visible, stale := was.stale + [id]);
    RememberedElsewhere(was, id, shown, existing, first);
    PiecesOf(was, id, rest);
    assert Pieces(s) == Pieces(was);
    hide Pieces;
    forall k <- visible.Keys ensures k in was.visible.Keys {}
  }

  lemma PiecesMoved(s: State, after: State, id: int, rest: seq<int>)
    requires s.remaining == [id] + rest && after.remaining == rest && after.remembered == s.remembered + [id]
    requires after.stale == s.stale
    ensures Pieces(after) == Pieces(s) && id in Pieces(s)
  {
    PiecesOf(s, id, rest);
  }

  lemma PiecesOf(was: State, id: int, rest: seq<int>)
    requires was.remaining == [id] + rest
    ensures Pieces(was) == multiset(was.remembered) + multiset{id} + multiset(rest) + multiset(was.stale)
    ensures Pieces(was) == Pieces(was.(remaining := rest)) + multiset{id}
  {
  }

  /** Deleting one uneditable reply keeps the invariant, whether or not the deletion succeeds. */
  lemma DeleteOneGood(w: World, was: State, s: State, id: int, shown: seq<string>, existing: seq<int>, first: int)
    requires Inv(was, shown, existing, first) && Popped(was, s, id, true) && s.remembered != []
    ensures var (failed, after, log) := Deleted(w, s.log, s.visible, [id]);
            Inv(s.(log := log, visible := after, stale := s.stale + failed), shown, existing, first)
  {
    hide Inv, Deleted;
    var (failed, after, log) := Deleted(w, s.log, s.visible, [id]);
    DeletedOne(w, s.log, s.visible, id);
    if failed == [id] {
      RetainedGood(was, log, s.remaining, after, id, shown, existing, first);
    } else {
      assert s.stale + [] == s.stale;
      DroppedGood(was, log, s.remaining, id, shown, existing, first);
    }
  }

  /** A list of pieces and the same with one id more. */
  lemma PiecesSplit(s: State, id: int, more: multiset<int>)
    requires more == Pieces(s) + multiset{id}
    ensures forall k: int :: more[k] == Pieces(s)[k] + (if k == id then 1 else 0)
    ensures forall k <- more :: k == id || k in Pieces(s)
    ensures forall k <- Pieces(s) :: k in more
  {
  }

  lemma DeletedOne(w: World, log: seq<Question>, visible: map<int, string>, id: int)
    ensures var (failed, after, asked) := Deleted(w, log, visible, [id]);
            && (|| (failed == [id] && (after == visible || after == visible - {id}))
                || (failed == [] && after == visible - {id}))
            && (if w.gate(|log|) then
                  && asked == log + [BeforeDelete([id]), Deleting(id)]
                  && (failed == [id] <==> w.delete(|log| + 1, id).Refused?)
                  && after == AfterDelete(w.delete(|log| + 1, id), visible, id)
                else asked == log + [BeforeDelete([id])] && failed == [id] && after == visible)
  {
    assert [id][1..] == [];
  }

  /** A reply still waiting to be edited shows no finished chunk. */
  lemma RememberedElsewhere(s: State, id: int, shown: seq<string>, existing: seq<int>, first: int)
    requires Inv(s, shown, existing, first) && id in s.remaining
    ensures forall j :: 0 <= j < |shown| ==> s.remembered[j] != id
  {
    forall j | 0 <= j < |shown| ensures s.remembered[j] != id {
      assert s.remembered[j] in multiset(s.remembered);
      assert id in multiset(s.remaining);
    }
  }

  /** A new reply joins the remembered ones under an id nobody used before. */
  lemma SentInv(s: State, log: seq<Question>, chunk: string, shown: seq<string>, existing: seq<int>, first: int)
    requires Inv(s, shown, existing, first) && s.remaining == []
    ensures Inv(s.(log := log, visible := s.visible[s.nextId := chunk], nextId := s.nextId + 1,
                   remembered := s.remembered + [s.nextId], tracked := Some(s.remembered + [s.nextId])),
                shown + [chunk], existing, first)
  {
    var after := s.(log := log, visible := s.visible[s.nextId := chunk], nextId := s.nextId + 1,
                    remembered := s.remembered + [s.nextId], tracked := Some(s.remembered + [s.nextId]));
    assert multiset(after.remembered) == multiset(s.remembered) + multiset{s.nextId};
    assert Pieces(after) == Pieces(s) + multiset{s.nextId};
    forall k: int ensures Pieces(after)[k] <= 1 {
      assert s.nextId !in Pieces(s);
      assert Pieces(after)[k] == Pieces(s)[k] + (if k == s.nextId then 1 else 0);
    }
    forall j | 0 <= j < |shown| + 1 ensures after.remembered[j] in after.visible && after.visible[after.remembered[j]] == (shown + [chunk])[j] {
      if j < |shown| { assert s.remembered[j] in s.visible.Keys; }
    }
  }

  lemma SentGood(w: World, s: State, chunk: string, shown: seq<string>, existing: seq<int>, first: int)
    requires Inv(s, shown, existing, first) && s.remaining == []
    ensures var (pass, after) := Sent(w, s, chunk);
            && (pass == Applied ==> Inv(after, shown + [chunk], existing, first))
            && (pass == Closed ==> Inv(after, shown, existing, first))
            && (pass == Failed ==> CutShort(after, existing, first))
            && pass != Unavailable && pass != Exhausted
  {
    hide Inv, CutShort;
    InvAsked(s, s.log + [BeforeSend], shown, existing, first);
    InvAsked(s, s.log + [BeforeSend, Sending], shown, existing, first);
    InvGated(s.(log := s.log + [BeforeSend, Sending]), shown, existing, first);
    if w.gate(|s.log|) && w.send(|s.log| + 1) {
      SentInv(s, s.log + [BeforeSend, Sending], chunk, shown, existing, first);
    }
  }

  ghost predicate Distinct(ids: seq<int>) { forall id: int :: multiset(ids)[id] <= 1 }

  /** The tracked list, read as the replies showing the chunks followed by the leftovers. */
  ghost predicate Tracks(s: State, chunks: seq<string>, existing: seq<int>, first: int)
  {
    && |s.remembered| == |chunks|
    && (forall i :: 0 <= i < |chunks| ==> s.remembered[i] in s.visible && s.visible[s.remembered[i]] == chunks[i])
    && s.tracked == (if s.remembered == [] && s.stale == [] then None else Some(s.remembered + s.stale))
    && Distinct(s.remembered + s.stale)
    && (forall id <- s.visible.Keys :: Ours(id, existing, first) ==> id in s.remembered + s.stale)
  }

  lemma FinishGood(w: World, s: State, chunks: seq<string>, existing: seq<int>, first: int)
    requires Inv(s, chunks, existing, first)
    ensures var (outcome, after) := Finish(w, s);
            && Tracks(after, chunks, existing, first)
            && (outcome == Success <==> after.stale == []) && (outcome == StaleChunksRetained <==> after.stale != [])
  {
    hide Deleted, Inv, Pieces, Distinct;
    var (failed, visible, _) := Deleted(w, s.log, s.visible, s.remaining);
    var after := Finish(w, s).1;
    assert after.remembered == s.remembered && after.stale == s.stale + failed && after.visible == visible;
    FinishOnce(w, s, chunks, existing, first);
    FinishShown(w, s, chunks, existing, first);
    assert after.remembered + after.stale == s.remembered + (s.stale + failed);
    assert s.remembered + after.stale == [] <==> s.remembered == [] && after.stale == [];
  }

  lemma FinishOnce(w: World, s: State, chunks: seq<string>, existing: seq<int>, first: int)
    requires Inv(s, chunks, existing, first)
    ensures var failed := Deleted(w, s.log, s.visible, s.remaining).0;
            Distinct(s.remembered + (s.stale + failed))
  {
    DeletedGood(w, s.log, s.visible, s.remaining);
    hide Deleted;
    FinishPieces(s, Deleted(w, s.log, s.visible, s.remaining).0);
  }

  /** Deleting the remaining replies leaves the chunks shown, and nothing visible that is not listed. */
  lemma FinishShown(w: World, s: State, chunks: seq<string>, existing: seq<int>, first: int)
    requires Inv(s, chunks, existing, first)
    ensures |s.remembered| == |chunks|
    ensures var (failed, visible, _) := Deleted(w, s.log, s.visible, s.remaining);
            && (forall i :: 0 <= i < |chunks| ==> s.remembered[i] in visible && visible[s.remembered[i]] == chunks[i])
            && (forall id <- visible.Keys :: Ours(id, existing, first) ==> id in s.remembered + (s.stale + failed))
  {
    var (failed, visible, _) := Deleted(w, s.log, s.visible, s.remaining);
    DeletedGood(w, s.log, s.visible, s.remaining);
    hide Deleted;
    RememberedNotRemaining(s, chunks, existing, first);
    forall i | 0 <= i < |chunks| ensures s.remembered[i] in visible && visible[s.remembered[i]] == chunks[i] {
      var id := s.remembered[i];
      assert id in s.visible && id !in s.remaining && id in s.visible.Keys;
      assert id in visible && id in visible.Keys;
    }
    forall id <- visible.Keys | Ours(id, existing, first) ensures id in s.remembered + (s.stale + failed) {
      assert id in s.visible.Keys && id in Pieces(s);
    }
  }

  /** No reply is tracked twice after the leftovers join the list. */
  lemma FinishPieces(s: State, failed: seq<int>)
    requires (forall id: int :: Pieces(s)[id] <= 1) && multiset(failed) <= multiset(s.remaining)
    ensures Distinct(s.remembered + (s.stale + failed))
  {
    assert multiset(s.remembered + (s.stale + failed)) == multiset(s.remembered) + multiset(s.stale) + multiset(failed);
    assert multiset(s.remembered + (s.stale + failed)) <= Pieces(s);
  }

  lemma RememberedNotRemaining(s: State, shown: seq<string>, existing: seq<int>, first: int)
    requires Inv(s, shown, existing, first)
    ensures forall j :: 0 <= j < |shown| ==> s.remembered[j] !in s.remaining
  {
    hide Pieces;
    forall id <- s.remaining ensures forall j :: 0 <= j < |shown| ==> s.remembered[j] != id {
      RememberedElsewhere(s, id, shown, existing, first);
    }
  }

  lemma InvGated(s: State, shown: seq<string>, existing: seq<int>, first: int)
    requires Inv(s, shown, existing, first)
    ensures CutShort(s, existing, first)
  {
    assert forall id <- Pieces(s) :: id in s.remembered || id in s.remaining || id in s.stale;
    forall id <- s.stale ensures id !in s.remembered {
      assert Pieces(s)[id] >= multiset(s.remembered)[id] + multiset(s.stale)[id];
    }
  }

  /** What each result of the edit says about the index, from any chunk on. */
  lemma {:induction false} EditFromGood(
    w: World, s: State, chunks: seq<string>, shown: seq<string>, existing: seq<int>, first: int)
    requires Inv(s, shown, existing, first)
    ensures var (outcome, after) := EditFrom(w, s, chunks);
            && (outcome == Success ==> Tracks(after, shown + chunks, existing, first) && after.stale == [])
            && (outcome == StaleChunksRetained ==> Tracks(after, shown + chunks, existing, first) && after.stale != [])
            && (outcome == EditTargetUnavailable ==> Pruned(after, existing, first))
            && (outcome == Gated || outcome == Raised ==> CutShort(after, existing, first))
    decreases |chunks|
  {
    hide Inv, Pieces, Tracks, Pruned, CutShort, EditPass, Sent;
    if chunks == [] {
      assert shown + chunks == shown;
      FinishGood(w, s, shown, existing, first);
    } else {
      EditPassGood(w, s, chunks[0], shown, existing, first);
      var (pass, after) := EditPass(w, s, chunks[0]);
      if pass == Exhausted { SentGood(w, after, chunks[0], shown, existing, first); }
      var (done, next) := ShowChunk(w, s, chunks[0]);
      if done == Applied {
        assert shown + chunks == shown + [chunks[0]] + chunks[1..];
        EditFromGood(w, next, chunks[1..], shown + [chunks[0]], existing, first);
      } else if done == Closed {
        InvGated(next, shown, existing, first);
      }
    }
  }

  /** The state `_edit_reply_chunks` starts from, for a post whose tracked replies are `existing`. */
  function Start(visible: map<int, string>, nextId: int, existing: seq<int>): State
  {
    State([], existing, [], [], visible, nextId, Some(existing))
  }

  /**
   The tracking guarantee of one edit.  After a success or a retained leftover the tracked ids are
   the replies showing chunk 0, 1, ..., in order, then exactly the leftovers; after an unavailable
   target only leftovers stay tracked; leftovers are replies whose deletion failed; no reply of the
   bot that is still visible is untracked.
   */
  lemma EditKeepsTrack(w: World, visible: map<int, string>, nextId: int, existing: seq<int>, chunks: seq<string>)
    requires existing != [] && Distinct(existing)
    requires (forall id <- existing :: id < nextId) && (forall id <- visible.Keys :: id < nextId)
    ensures var (outcome, after) := EditFrom(w, Start(visible, nextId, existing), chunks);
            && (outcome == Success ==> Tracks(after, chunks, existing, nextId) && after.stale == [])
            && (outcome == StaleChunksRetained ==> Tracks(after, chunks, existing, nextId) && after.stale != [])
            && (outcome == EditTargetUnavailable ==> Pruned(after, existing, nextId))
            && (outcome == Gated || outcome == Raised ==> CutShort(after, existing, nextId))
            && Justified(w, after)
  {
    var s := Start(visible, nextId, existing);
    LeftoversJustified(w, s, chunks);
    assert Pieces(s) == multiset(existing);
    assert forall id <- Pieces(s) :: id in existing;
    assert Inv(s, [], existing, nextId);
    EditFromGood(w, s, chunks, [], existing, nextId);
    assert [] + chunks == chunks;
  }

  // ---------------------------------------------------------------- what stays behind, and why

  /** Question `k` of a run closed the gate on the deletion of `id`, or its deletion was refused. */
  predicate StuckAt(w: World, log: seq<Question>, id: int, k: nat)
  {
    k < |log|
    && match log[k]
       case BeforeDelete(ids) => id in ids && !w.gate(k)
       case Deleting(one) => one == id && w.delete(k, id).Refused?
       case _ => false
  }

  ghost predicate Leftover(w: World, id: int, log: seq<Question>) { exists k: nat :: StuckAt(w, log, id, k) }

  /** Every reply kept as a leftover is one whose deletion failed. */
  ghost predicate Justified(w: World, s: State) { forall id <- s.stale :: Leftover(w, id, s.log) }

  /** What was asked stays asked. */
  lemma LeftoverStill(w: World, id: int, log: seq<Question>, longer: seq<Question>)
    requires Leftover(w, id, log) && log <= longer
    ensures Leftover(w, id, longer)
  {
    var k: nat :| StuckAt(w, log, id, k);
    assert StuckAt(w, longer, id, k);
  }

  lemma JustifiedStill(w: World, s: State, later: State)
    requires Justified(w, s) && s.log <= later.log
        && forall id <- later.stale :: id in s.stale || Leftover(w, id, later.log)
    ensures Justified(w, later)
  {
    forall id <- later.stale ensures Leftover(w, id, later.log) {
      if id in s.stale { LeftoverStill(w, id, s.log, later.log); }
    }
  }

  lemma {:induction false} DeletedJustified(w: World, log: seq<Question>, visible: map<int, string>, ids: seq<int>)
    ensures var (failed, _, asked) := Deleted(w, log, visible, ids);
            log <= asked && forall id <- failed :: Leftover(w, id, asked)
    decreases |ids|
  {
    if ids != [] {
      if !w.gate(|log|) {
        forall id <- ids ensures Leftover(w, id, log + [BeforeDelete(ids)]) {
          assert StuckAt(w, log + [BeforeDelete(ids)], id, |log|);
        }
      } else {
        var more := log + [BeforeDelete(ids), Deleting(ids[0])];
        DeletedJustified(w, more, AfterDelete(w.delete(|log| + 1, ids[0]), visible, ids[0]), ids[1..]);
        if w.delete(|log| + 1, ids[0]).Refused? {
          assert StuckAt(w, more, ids[0], |log| + 1);
          LeftoverStill(w, ids[0], more, Deleted(w, log, visible, ids).2);
        }
      }
    }
  }

  lemma {:induction false} PassJustified(w: World, s: State, chunk: string)
    requires Justified(w, s)
    ensures Justified(w, EditPass(w, s, chunk).1)
    decreases |s.remaining|, 0
  {
    hide Justified;
    if s.remaining != [] {
      var id, rest := s.remaining[0], s.remaining[1..];
      JustifiedStill(w, s, s.(log := s.log + [BeforeEdit(id)]));
      var next := s.(log := s.log + [BeforeEdit(id), Editing(id)], remaining := rest);
      JustifiedStill(w, s, EditPassed(next, id, chunk));
      JustifiedStill(w, s, next);
      JustifiedStill(w, s, next.(visible := s.visible - {id}));
      if w.gate(|s.log|) {
        match w.edit(|s.log| + 1)
        case EditError =>
        case Edited =>
        case Gone => MissedJustified(w, next.(visible := s.visible - {id}), id, false, chunk);
        case Uneditable => MissedJustified(w, next, id, true, chunk);
      }
    }
  }

  function EditPassed(s: State, id: int, chunk: string): State
  {
    s.(visible := s.visible[id := chunk], remembered := s.remembered + [id])
  }

  lemma {:induction false} MissedJustified(w: World, s: State, id: int, uneditable: bool, chunk: string)
    requires Justified(w, s)
    ensures Justified(w, Missed(w, s, id, uneditable, chunk).1)
    decreases |s.remaining|, 1
  {
    if s.remembered == [] {
      DeletedJustified(w, s.log, s.visible, (if uneditable then [id] else []) + s.remaining);
    } else if uneditable {
      var (failed, after, log) := Deleted(w, s.log, s.visible, [id]);
      DeletedJustified(w, s.log, s.visible, [id]);
      JustifiedStill(w, s, s.(log := log, visible := after, stale := s.stale + failed));
      PassJustified(w, s.(log := log, visible := after, stale := s.stale + failed), chunk);
    } else {
      PassJustified(w, s, chunk);
    }
  }

  /** Whatever an edit leaves behind, it tried to delete. */
  lemma {:induction false} LeftoversJustified(w: World, s: State, chunks: seq<string>)
    requires Justified(w, s)
    ensures Justified(w, EditFrom(w, s, chunks).1)
    decreases |chunks|
  {
    hide EditPass, Deleted, Justified;
    if chunks == [] {
      FinishJustified(w, s);
    } else {
      PassJustified(w, s, chunks[0]);
      var (pass, after) := EditPass(w, s, chunks[0]);
      SentJustified(w, after, chunks[0]);
      var (_, next) := ShowChunk(w, s, chunks[0]);
      LeftoversJustified(w, next, chunks[1..]);
    }
  }

  lemma FinishJustified(w: World, s: State)
    requires Justified(w, s)
    ensures Justified(w, Finish(w, s).1)
  {
    DeletedJustified(w, s.log, s.visible, s.remaining);
    JustifiedStill(w, s, Finish(w, s).1);
  }

  lemma SentJustified(w: World, s: State, chunk: string)
    requires Justified(w, s)
    ensures Justified(w, Sent(w, s, chunk).1)
  {
    hide Justified;
    JustifiedStill(w, s, Sent(w, s, chunk).1);
  }

  // ---------------------------------------------------------------- how an edit ends, and what it asks

  /** The gate is closed before an edit or a send. */
  predicate Closes(w: World, q: Question, k: nat) { (q.BeforeEdit? || q.BeforeSend?) && !w.gate(k) }

  /** An edit fails with an exception that escapes, or a send does. */
  predicate Breaks(w: World, q: Question, k: nat)
  {
    (q.Editing? && w.edit(k) == EditError) || (q.Sending? && !w.send(k))
  }

  predicate EndsClosed(w: World, log: seq<Question>) { log != [] && Closes(w, log[|log| - 1], |log| - 1) }

  predicate EndsBroken(w: World, log: seq<Question>) { log != [] && Breaks(w, log[|log| - 1], |log| - 1) }

  /** The very first edit found its reply gone or not editable. */
  predicate TargetLost(w: World, log: seq<Question>)
  {
    |log| >= 2 && log[1].Editing? && (w.edit(1) == Gone || w.edit(1) == Uneditable)
  }

  /** Nothing so far ends the run. */
  ghost predicate Smooth(w: World, log: seq<Question>)
  {
    forall k :: 0 <= k < |log| ==> !Closes(w, log[k], k) && !Breaks(w, log[k], k)
  }

  /** Before the first chunk is shown nothing was asked; after it the first edit had worked. */
  predicate Begun(w: World, s: State)
  {
    if s.remembered == [] then s.log == [] && s.remaining != []
    else |s.log| >= 2 && s.log[1].Editing? && w.edit(1) == Edited
  }

  /** Deleting asks about deletions only. */
  lemma {:induction false} DeletedAsks(w: World, log: seq<Question>, visible: map<int, string>, ids: seq<int>)
    ensures var asked := Deleted(w, log, visible, ids).2;
            log <= asked && forall k :: |log| <= k < |asked| ==> asked[k].BeforeDelete? || asked[k].Deleting?
    decreases |ids|
  {
    if ids != [] && w.gate(|log|) {
      DeletedAsks(w, log + [BeforeDelete(ids), Deleting(ids[0])], AfterDelete(w.delete(|log| + 1, ids[0]), visible, ids[0]),
          ids[1..]);
    }
  }

  lemma DeletedSmooth(w: World, log: seq<Question>, visible: map<int, string>, ids: seq<int>)
    requires Smooth(w, log)
    ensures Smooth(w, Deleted(w, log, visible, ids).2) && log <= Deleted(w, log, visible, ids).2
    ensures |log| != 1 ==> TargetLost(w, log) == TargetLost(w, Deleted(w, log, visible, ids).2)
  {
    DeletedAsks(w, log, visible, ids);
    hide Deleted;
  }

  /** How one pass over the remaining replies ends. */
  ghost predicate PassEnds(w: World, pass: Pass, after: State)
  {
    match pass
    case Applied => Smooth(w, after.log) && Begun(w, after) && after.remembered != []
    case Exhausted => Smooth(w, after.log) && Begun(w, after) && after.remembered != []
    case Closed => EndsClosed(w, after.log) && !TargetLost(w, after.log)
    case Unavailable => Smooth(w, after.log) && TargetLost(w, after.log)
    case Failed => EndsBroken(w, after.log) && !TargetLost(w, after.log)
  }

  lemma {:induction false} EditPassEnds(w: World, s: State, chunk: string)
    requires Smooth(w, s.log) && Begun(w, s)
    ensures var (pass, after) := EditPass(w, s, chunk); PassEnds(w, pass, after)
    decreases |s.remaining|, 0
  {
    hide Deleted;
    if s.remaining != [] {
      var id, rest := s.remaining[0], s.remaining[1..];
      if w.gate(|s.log|) {
        var next := s.(log := s.log + [BeforeEdit(id), Editing(id)], remaining := rest);
        match w.edit(|s.log| + 1)
        case EditError =>
        case Edited =>
        case Gone => MissedEnds(w, next.(visible := s.visible - {id}), id, false, chunk);
        case Uneditable => MissedEnds(w, next, id, true, chunk);
      }
    }
  }

  lemma {:induction false} MissedEnds(w: World, s: State, id: int, uneditable: bool, chunk: string)
    requires Smooth(w, s.log) && |s.log| >= 2
    requires if s.remembered == [] then TargetLost(w, s.log) else Begun(w, s)
    ensures var (pass, after) := Missed(w, s, id, uneditable, chunk); PassEnds(w, pass, after)
    decreases |s.remaining|, 1
  {
    hide Smooth;
    if s.remembered == [] {
      DeletedSmooth(w, s.log, s.visible, (if uneditable then [id] else []) + s.remaining);
    } else if uneditable {
      var (failed, after, log) := Deleted(w, s.log, s.visible, [id]);
      DeletedSmooth(w, s.log, s.visible, [id]);
      hide Deleted;
      EditPassEnds(w, s.(log := log, visible := after, stale := s.stale + failed), chunk);
    } else {
      EditPassEnds(w, s, chunk);
    }
  }

  lemma ShowChunkEnds(w: World, s: State, chunk: string)
    requires Smooth(w, s.log) && Begun(w, s)
    ensures var (pass, after) := ShowChunk(w, s, chunk); pass != Exhausted && PassEnds(w, pass, after)
  {
    EditPassEnds(w, s, chunk);
    hide EditPass;
  }

  /** How a run ends is what the world answered last, or first; in every other case all chunks are shown. */
  ghost predicate Ends(w: World, outcome: Outcome, log: seq<Question>)
  {
    && (outcome == Gated <==> EndsClosed(w, log))
    && (outcome == Raised <==> EndsBroken(w, log))
    && (outcome == EditTargetUnavailable <==> TargetLost(w, log))
  }

  lemma {:induction false} EditFromEnds(w: World, s: State, chunks: seq<string>)
    requires Smooth(w, s.log) && Begun(w, s)
    ensures var (outcome, after) := EditFrom(w, s, chunks); Ends(w, outcome, after.log)
    decreases |chunks|
  {
    if chunks == [] {
      DeletedSmooth(w, s.log, s.visible, s.remaining);
      hide Deleted;
    } else {
      ShowChunkEnds(w, s, chunks[0]);
      hide ShowChunk;
      var (pass, after) := ShowChunk(w, s, chunks[0]);
      if pass == Applied { EditFromEnds(w, after, chunks[1..]); }
    }
  }

  /** The replies an edit was asked of, in order. */
  function Tried(log: seq<Question>): seq<int>
  {
    if log == [] then []
    else
      var last := log[|log| - 1];
      Tried(log[..|log| - 1]) + if last.Editing? then [last.id] else []
  }

  /** The last question tried to edit a reply that cannot be edited. */
  predicate Due(w: World, log: seq<Question>)
  {
    log != [] && log[|log| - 1].Editing? && w.edit(|log| - 1) == Uneditable
  }

  /** The reply was edited, or is gone. */
  ghost predicate Settled(w: World, log: seq<Question>, id: int)
  {
    exists k: nat :: k < |log| && log[k] == Editing(id) && (w.edit(k) == Edited || w.edit(k) == Gone)
  }

  /**
   What may be asked next: the tracked replies are tried in their order, and a send only after all of
   them; each question to Telegram follows its open gate; a reply that cannot be edited is to be
   deleted at once; and no deletion is asked of a reply that was edited or is gone.
   */
  ghost predicate Proper(w: World, log: seq<Question>, q: Question, existing: seq<int>)
  {
    && (Due(w, log) ==> q.BeforeDelete? && q.ids != [] && q.ids[0] == log[|log| - 1].id)
    && match q
       case BeforeEdit(id) => Tried(log) + [id] <= existing
       case Editing(id) => log != [] && log[|log| - 1] == BeforeEdit(id) && w.gate(|log| - 1)
       case BeforeSend => Tried(log) == existing
       case Sending => log != [] && log[|log| - 1] == BeforeSend && w.gate(|log| - 1)
       case BeforeDelete(ids) => ids != [] && forall id <- ids :: id in existing && !Settled(w, log, id)
       case Deleting(id) =>
         log != [] && log[|log| - 1].BeforeDelete? && id in log[|log| - 1].ids && w.gate(|log| - 1)
  }

  ghost predicate Orderly(w: World, log: seq<Question>, existing: seq<int>)
  {
    forall k :: 0 <= k < |log| ==> Proper(w, log[..k], log[k], existing)
  }

  lemma OneMoreProper(w: World, log: seq<Question>, q: Question, existing: seq<int>)
    requires Orderly(w, log, existing) && Proper(w, log, q, existing)
    ensures Orderly(w, log + [q], existing)
    ensures Tried(log + [q]) == Tried(log) + if q.Editing? then [q.id] else []
  {
    hide Proper;
    assert (log + [q])[..|log|] == log;
    forall k | 0 <= k < |log| ensures Proper(w, (log + [q])[..k], (log + [q])[k], existing) {
      assert (log + [q])[..k] == log[..k];
    }
  }

  lemma {:induction false} TriedHas(log: seq<Question>, k: nat)
    requires k < |log| && log[k].Editing?
    ensures log[k].id in Tried(log)
  {
    if k < |log| - 1 { TriedHas(log[..|log| - 1], k); }
  }

  /** A reply not tried before the last question, and not settled by it, may be deleted. */
  lemma Unsettled(w: World, log: seq<Question>, id: int)
    requires id !in Tried(log) || (Due(w, log) && id !in Tried(log[..|log| - 1]))
    ensures !Settled(w, log, id)
  {
    forall k: nat | k < |log| && log[k] == Editing(id) ensures w.edit(k) == Uneditable {
      TriedHas(log, k);
      if k < |log| - 1 { TriedHas(log[..|log| - 1], k); }
    }
  }

  /** No reply stands twice among the tracked ones. */
  lemma OnceTried(tried: seq<int>, rest: seq<int>, existing: seq<int>, id: int)
    requires tried + rest == existing && Distinct(existing) && id in rest
    ensures id !in tried && id in existing
  {
    assert existing == tried + rest;
    assert multiset(existing)[id] == multiset(tried)[id] + multiset(rest)[id];
    assert id in multiset(rest) && (id in tried <==> id in multiset(tried));
  }

  /** Deleting replies that are not settled is orderly. */
  lemma {:induction false} DeletedOrderly(w: World, log: seq<Question>, visible: map<int, string>, ids: seq<int>,
      existing: seq<int>)
    requires Orderly(w, log, existing) && forall id <- ids :: id in existing && !Settled(w, log, id)
    requires Due(w, log) ==> ids != [] && ids[0] == log[|log| - 1].id
    ensures var asked := Deleted(w, log, visible, ids).2;
            Orderly(w, asked, existing) && Tried(asked) == Tried(log) && !Due(w, asked)
    decreases |ids|
  {
    hide Settled, Orderly, Tried, Due;
    if ids != [] {
      DeleteOneOrderly(w, log, ids, existing);
      if w.gate(|log|) {
        DeletedOrderly(w, log + [BeforeDelete(ids), Deleting(ids[0])],
            AfterDelete(w.delete(|log| + 1, ids[0]), visible, ids[0]), ids[1..], existing);
      }
    }
  }

  lemma DeleteOneOrderly(w: World, log: seq<Question>, ids: seq<int>, existing: seq<int>)
    requires Orderly(w, log, existing) && ids != [] && forall id <- ids :: id in existing && !Settled(w, log, id)
    requires Due(w, log) ==> ids[0] == log[|log| - 1].id
    ensures var asked := log + [BeforeDelete(ids)];
            Orderly(w, asked, existing) && Tried(asked) == Tried(log) && !Due(w, asked)
    ensures var asked := log + [BeforeDelete(ids), Deleting(ids[0])];
            && (w.gate(|log|) ==> Orderly(w, asked, existing)) && Tried(asked) == Tried(log) && !Due(w, asked)
            && (forall id :: Settled(w, asked, id) ==> Settled(w, log, id))
  {
    hide Settled, Orderly;
    var gated := log + [BeforeDelete(ids)];
    assert log + [BeforeDelete(ids), Deleting(ids[0])] == gated + [Deleting(ids[0])];
    assert gated[..|log|] == log && (gated + [Deleting(ids[0])])[..|gated|] == gated;
    StillUnsettled(w, log, BeforeDelete(ids), Deleting(ids[0]));
    assert Tried(gated) == Tried(log) + [] == Tried(log);
    assert Tried(gated + [Deleting(ids[0])]) == Tried(gated) + [] == Tried(gated);
    hide Tried;
    OneMoreProper(w, log, BeforeDelete(ids), existing);
    if w.gate(|log|) { OneMoreProper(w, gated, Deleting(ids[0]), existing); }
  }

  lemma StillUnsettled(w: World, log: seq<Question>, q: Question, r: Question)
    requires !q.Editing? && !r.Editing?
    ensures forall id :: Settled(w, log + [q] + [r], id) ==> Settled(w, log, id)
  {
    forall id | Settled(w, log + [q] + [r], id) ensures Settled(w, log, id) {
      var k: nat :| k < |log + [q] + [r]| && (log + [q] + [r])[k] == Editing(id)
          && (w.edit(k) == Edited || w.edit(k) == Gone);
      assert k < |log| && log[k] == Editing(id);
    }
  }

  /** The questions so far are in order, and the replies not tried yet are the remaining ones. */
  ghost predicate Ordered(w: World, s: State, existing: seq<int>)
  {
    Orderly(w, s.log, existing) && Tried(s.log) + s.remaining == existing && !Due(w, s.log)
  }

  /** One more reply is tried. */
  lemma TryOrdered(w: World, s: State, existing: seq<int>)
    requires Ordered(w, s, existing) && s.remaining != [] && Distinct(existing)
    ensures Orderly(w, s.log + [BeforeEdit(s.remaining[0])], existing)
    ensures w.gate(|s.log|) ==>
              var asked := s.log + [BeforeEdit(s.remaining[0]), Editing(s.remaining[0])];
              && Orderly(w, asked, existing) && Tried(asked) + s.remaining[1..] == existing
              && Tried(asked[..|asked| - 1]) == Tried(s.log) && s.remaining[0] !in Tried(s.log)
                  && s.remaining[0] in existing
  {
    hide Orderly, Distinct, Settled;
    var id, rest := s.remaining[0], s.remaining[1..];
    var gated := s.log + [BeforeEdit(id)];
    TriedSplit(Tried(s.log), id, rest, s.remaining);
    OnceTried(Tried(s.log), s.remaining, existing, id);
    assert s.log + [BeforeEdit(id), Editing(id)] == gated + [Editing(id)]
        && (gated + [Editing(id)])[..|gated|] == gated;
    hide Tried;
    OneMoreProper(w, s.log, BeforeEdit(id), existing);
    assert Tried(gated) == Tried(s.log) + [];
    if w.gate(|s.log|) { OneMoreProper(w, gated, Editing(id), existing); }
  }

  lemma TriedSplit(tried: seq<int>, id: int, rest: seq<int>, remaining: seq<int>)
    requires remaining == [id] + rest
    ensures tried + remaining == tried + [id] + rest && tried + [id] <= tried + remaining
  {
  }

  lemma {:induction false} PassOrdered(w: World, s: State, chunk: string, existing: seq<int>)
    requires Ordered(w, s, existing) && Distinct(existing)
    ensures var (pass, after) := EditPass(w, s, chunk);
            && Orderly(w, after.log, existing) && !Due(w, after.log)
            && (pass == Applied || pass == Exhausted ==> Ordered(w, after, existing))
            && (pass == Exhausted ==> after.remaining == [])
    decreases |s.remaining|, 0
  {
    hide Orderly, Tried, Deleted, Distinct;
    if s.remaining != [] {
      var id, rest := s.remaining[0], s.remaining[1..];
      TryOrdered(w, s, existing);
      if w.gate(|s.log|) {
        var next := s.(log := s.log + [BeforeEdit(id), Editing(id)], remaining := rest);
        match w.edit(|s.log| + 1)
        case EditError =>
        case Edited =>
        case Gone => MissedOrdered(w, next.(visible := s.visible - {id}), id, false, chunk, existing);
        case Uneditable => MissedOrdered(w, next, id, true, chunk, existing);
      }
    }
  }

  lemma {:induction false} MissedOrdered(w: World, s: State, id: int, uneditable: bool, chunk: string,
          existing: seq<int>)
    requires Orderly(w, s.log, existing) && Tried(s.log) + s.remaining == existing && Distinct(existing)
    requires s.log != [] && s.log[|s.log| - 1] == Editing(id) && (uneditable <==> Due(w, s.log))
    requires id in existing && id !in Tried(s.log[..|s.log| - 1])
    ensures var (pass, after) := Missed(w, s, id, uneditable, chunk);
            && Orderly(w, after.log, existing) && !Due(w, after.log)
            && (pass == Applied || pass == Exhausted ==> Ordered(w, after, existing))
            && (pass == Exhausted ==> after.remaining == [])
    decreases |s.remaining|, 1
  {
    hide Orderly, Tried, Deleted, Distinct, Settled;
    if uneditable { Unsettled(w, s.log, id); }
    if s.remembered == [] {
      RemainingUnsettled(w, s, existing);
      DeletedOrderly(w, s.log, s.visible, (if uneditable then [id] else []) + s.remaining, existing);
    } else if uneditable {
      var (failed, after, log) := Deleted(w, s.log, s.visible, [id]);
      DeletedOrderly(w, s.log, s.visible, [id], existing);
      PassOrdered(w, s.(log := log, visible := after, stale := s.stale + failed), chunk, existing);
    } else {
      PassOrdered(w, s, chunk, existing);
    }
  }

  lemma RemainingUnsettled(w: World, s: State, existing: seq<int>)
    requires Tried(s.log) + s.remaining == existing && Distinct(existing)
    ensures forall id <- s.remaining :: id in existing && !Settled(w, s.log, id)
  {
    hide Distinct, Settled, Tried;
    forall id <- s.remaining ensures id in existing && !Settled(w, s.log, id) {
      OnceTried(Tried(s.log), s.remaining, existing, id);
      Unsettled(w, s.log, id);
    }
  }

  lemma SentOrdered(w: World, s: State, chunk: string, existing: seq<int>)
    requires Ordered(w, s, existing) && s.remaining == []
    ensures var (pass, after) := Sent(w, s, chunk);
            && Orderly(w, after.log, existing) && !Due(w, after.log)
                && (pass == Applied ==> Ordered(w, after, existing))
  {
    hide Orderly;
    assert Tried(s.log) + [] == Tried(s.log);
    OneMoreProper(w, s.log, BeforeSend, existing);
    if w.gate(|s.log|) {
      OneMoreProper(w, s.log + [BeforeSend], Sending, existing);
      assert s.log + [BeforeSend, Sending] == s.log + [BeforeSend] + [Sending];
    }
  }

  lemma {:induction false} EditFromOrderly(w: World, s: State, chunks: seq<string>, existing: seq<int>)
    requires Ordered(w, s, existing) && Distinct(existing)
    ensures var after := EditFrom(w, s, chunks).1; Orderly(w, after.log, existing) && !Due(w, after.log)
    decreases |chunks|
  {
    hide Ordered, Orderly, Due, EditPass, Sent, Distinct;
    if chunks == [] {
      FinishOrderly(w, s, existing);
    } else {
      PassOrdered(w, s, chunks[0], existing);
      var (pass, after) := EditPass(w, s, chunks[0]);
      if pass == Exhausted { SentOrdered(w, after, chunks[0], existing); }
      var (done, next) := ShowChunk(w, s, chunks[0]);
      if done == Applied { EditFromOrderly(w, next, chunks[1..], existing); }
    }
  }

  lemma FinishOrderly(w: World, s: State, existing: seq<int>)
    requires Ordered(w, s, existing) && Distinct(existing)
    ensures Orderly(w, Finish(w, s).1.log, existing) && !Due(w, Finish(w, s).1.log)
  {
    hide Orderly, Tried, Distinct, Settled;
    RemainingUnsettled(w, s, existing);
    DeletedOrderly(w, s.log, s.visible, s.remaining, existing);
  }

  /**
   How any edit ends, by the world and the questions it was asked alone.  It is gated exactly when
   the last question found the gate of an edit or a send closed, raises exactly when the last
   question was an edit or a send that failed, and finds its target unavailable exactly when the very
   first edit found its reply gone or not editable; every other run shows all chunks and reports
   whether leftovers remain.  The questions themselves are in order.
   */
  lemma EditEnds(w: World, visible: map<int, string>, nextId: int, existing: seq<int>, chunks: seq<string>)
    requires existing != [] && Distinct(existing)
    ensures var (outcome, after) := EditFrom(w, Start(visible, nextId, existing), chunks);
            && Ends(w, outcome, after.log)
            && Orderly(w, after.log, existing) && !Due(w, after.log)
  {
    hide EditFrom, Distinct;
    EditFromEnds(w, Start(visible, nextId, existing), chunks);
    assert Tried([]) + existing == existing;
    EditFromOrderly(w, Start(visible, nextId, existing), chunks, existing);
  }

  // ---------------------------------------------------------------- replies an edit cut short forgets

  /** A reply of the bot that is visible but no longer tracked. */
  ghost predicate Orphaned(s: State, existing: seq<int>, first: int, id: int)
  {
    id in s.visible && Ours(id, existing, first) && (s.tracked.None? || id !in s.tracked.value)
  }

  /** Question `k` of a run left `id` undeleted, and in place. */
  predicate LeftAt(w: World, log: seq<Question>, id: int, k: nat)
  {
    StuckAt(w, log, id, k) && (log[k].Deleting? ==> !w.delete(k, id).lost)
  }

  ghost predicate LeftInPlace(w: World, log: seq<Question>, id: int) { exists k: nat :: LeftAt(w, log, id, k) }

  predicate SentAt(w: World, log: seq<Question>, k: nat) { k < |log| && log[k].Sending? && w.send(k) }

  ghost predicate SomeSent(w: World, log: seq<Question>) { exists k: nat :: SentAt(w, log, k) }

  /** One question more. */
  lemma AskedMore(w: World, log: seq<Question>, q: Question)
    ensures forall id :: LeftInPlace(w, log + [q], id) <==> LeftInPlace(w, log, id) || LeftAt(w, log + [q], id, |log|)
    ensures SomeSent(w, log + [q]) <==> SomeSent(w, log) || (q.Sending? && w.send(|log|))
  {
    var longer := log + [q];
    forall id ensures LeftInPlace(w, longer, id) <==> LeftInPlace(w, log, id) || LeftAt(w, longer, id, |log|)
    {
      assert forall k: nat :: k < |log| ==> (LeftAt(w, longer, id, k) <==> LeftAt(w, log, id, k));
    }
    assert forall k: nat :: k < |log| ==> (SentAt(w, longer, k) <==> SentAt(w, log, k));
    assert SentAt(w, longer, |log|) <==> q.Sending? && w.send(|log|);
  }

  /** Between chunks the lists and what is visible are accounted for by the answers so far. */
  ghost predicate Account(w: World, s: State, visible: map<int, string>, existing: seq<int>, first: int)
  {
    && (forall i, j :: 0 <= i < j < |s.remaining| ==> s.remaining[i] != s.remaining[j])
    && (forall id <- s.remaining :: id in existing && id !in s.stale && (id in s.visible <==> id in visible))
    && (forall id <- s.stale :: id in existing)
    && (forall id <- existing :: id < first) && first <= s.nextId
    && (s.nextId > first <==> SomeSent(w, s.log))
    && (forall id: int :: id in s.stale && id in s.visible <==> id in visible && LeftInPlace(w, s.log, id))
  }

  /** Questions about edits, the gate of an edit or of a send, and a send that fails, account for nothing. */
  lemma AccountAsked(w: World, s: State, q: Question, visible: map<int, string>, existing: seq<int>, first: int)
    requires Account(w, s, visible, existing, first)
    requires q.BeforeEdit? || q.Editing? || q.BeforeSend? || (q.BeforeDelete? && w.gate(|s.log|))
    ensures Account(w, s.(log := s.log + [q]), visible, existing, first)
  {
    AskedMore(w, s.log, q);
    hide LeftInPlace, SomeSent;
    assert forall id :: !LeftAt(w, s.log + [q], id, |s.log|);
  }

  /** The first remaining reply leaves the list, shown or gone. */
  lemma AccountPopped(w: World, s: State, rest: seq<int>, id: int, now: map<int, string>, visible: map<int, string>,
          existing: seq<int>, first: int)
    requires Account(w, s, visible, existing, first) && s.remaining == [id] + rest
    requires forall k :: k != id ==> (k in now <==> k in s.visible)
    ensures Account(w, s.(remaining := rest, visible := now), visible, existing, first)
    ensures id in existing && id !in s.stale && id !in rest && (id in s.visible <==> id in visible)
  {
    hide LeftInPlace, SomeSent;
    assert s.remaining[0] == id;
    forall k <- rest ensures k in s.remaining && k != id {
      var i :| 0 <= i < |rest| && rest[i] == k;
      assert s.remaining[i + 1] == k;
    }
    forall i, j | 0 <= i < j < |rest| ensures rest[i] != rest[j] {
      assert s.remaining[i + 1] == rest[i] && s.remaining[j + 1] == rest[j];
    }
  }

  /** A refused deletion leaves the reply behind, visible unless it was lost on the way. */
  lemma AccountRefused(w: World, s: State, id: int, q: Question, visible: map<int, string>, existing: seq<int>,
          first: int)
    requires Account(w, s, visible, existing, first) && id in existing && id !in s.stale && id !in s.remaining
    requires id in s.visible <==> id in visible
    requires if q == Deleting(id) then w.delete(|s.log|, id).Refused? else q == BeforeDelete([id]) && !w.gate(|s.log|)
    ensures var now := if q == Deleting(id) then AfterDelete(w.delete(|s.log|, id), s.visible, id) else s.visible;
            Account(w, s.(log := s.log + [q], stale := s.stale + [id], visible := now), visible, existing, first)
  {
    AskedMore(w, s.log, q);
    hide LeftInPlace, SomeSent;
    var stays := q == Deleting(id) ==> !w.delete(|s.log|, id).lost;
    assert forall k :: LeftAt(w, s.log + [q], k, |s.log|) <==> k == id && stays;
  }

  lemma AccountCleared(w: World, s: State, id: int, visible: map<int, string>, existing: seq<int>, first: int)
    requires Account(w, s, visible, existing, first) && id !in s.stale && id !in s.remaining
    requires w.delete(|s.log|, id).Cleared?
    ensures Account(w, s.(log := s.log + [Deleting(id)], visible := s.visible - {id}), visible, existing, first)
  {
    AskedMore(w, s.log, Deleting(id));
    hide LeftInPlace, SomeSent;
    assert forall k :: !LeftAt(w, s.log + [Deleting(id)], k, |s.log|);
  }

  /** The deletion of one uneditable reply. */
  lemma AccountDeleted(w: World, s: State, id: int, visible: map<int, string>, existing: seq<int>, first: int)
    requires Account(w, s, visible, existing, first) && id in existing && id !in s.stale && id !in s.remaining
    requires id in s.visible <==> id in visible
    ensures var (failed, after, log) := Deleted(w, s.log, s.visible, [id]);
            Account(w, s.(log := log, visible := after, stale := s.stale + failed), visible, existing, first)
  {
    hide Account, Deleted;
    DeletedOne(w, s.log, s.visible, id);
    if w.gate(|s.log|) {
      var asked := s.(log := s.log + [BeforeDelete([id])]);
      AccountAsked(w, s, BeforeDelete([id]), visible, existing, first);
      assert s.log + [BeforeDelete([id]), Deleting(id)] == asked.log + [Deleting(id)];
      if w.delete(|s.log| + 1, id).Refused? {
        AccountRefused(w, asked, id, Deleting(id), visible, existing, first);
      } else {
        assert s.stale + [] == s.stale;
        AccountCleared(w, asked, id, visible, existing, first);
      }
    } else {
      AccountRefused(w, s, id, BeforeDelete([id]), visible, existing, first);
    }
  }

  lemma {:induction false} PassAccount(w: World, s: State, chunk: string, visible: map<int, string>, existing: seq<int>,
          first: int)
    requires Account(w, s, visible, existing, first)
    ensures var (pass, after) := EditPass(w, s, chunk);
            pass != Unavailable ==> Account(w, after, visible, existing, first)
    decreases |s.remaining|, 0
  {
    hide Account, Deleted;
    if s.remaining != [] {
      var id, rest := s.remaining[0], s.remaining[1..];
      assert s.remaining == [id] + rest;
      AccountAsked(w, s, BeforeEdit(id), visible, existing, first);
      if w.gate(|s.log|) {
        var asked := s.(log := s.log + [BeforeEdit(id), Editing(id)]);
        AccountAsked(w, s.(log := s.log + [BeforeEdit(id)]), Editing(id), visible, existing, first);
        assert asked.log == s.log + [BeforeEdit(id)] + [Editing(id)];
        match w.edit(|s.log| + 1)
        case EditError => AccountPopped(w, asked, rest, id, s.visible, visible, existing, first);
        case Edited =>
          AccountPopped(w, asked, rest, id, s.visible[id := chunk], visible, existing, first);
          AccountRemembers(w, asked.(remaining := rest, visible := s.visible[id := chunk]), s.remembered + [id],
              visible, existing, first);
        case Gone =>
          AccountPopped(w, asked, rest, id, s.visible - {id}, visible, existing, first);
          MissedAccount(w, asked.(remaining := rest, visible := s.visible - {id}), id, false, chunk, visible,
              existing, first);
        case Uneditable =>
          AccountPopped(w, asked, rest, id, s.visible, visible, existing, first);
          MissedAccount(w, asked.(remaining := rest), id, true, chunk, visible, existing, first);
      }
    }
  }

  lemma AccountRemembers(w: World, s: State, remembered: seq<int>, visible: map<int, string>, existing: seq<int>,
          first: int)
    requires Account(w, s, visible, existing, first)
    ensures Account(w, s.(remembered := remembered), visible, existing, first)
  {
    hide LeftInPlace, SomeSent;
  }

  lemma {:induction false} MissedAccount(w: World, s: State, id: int, uneditable: bool, chunk: string,
          visible: map<int, string>, existing: seq<int>, first: int)
    requires Account(w, s, visible, existing, first)
    requires uneditable ==> id in existing && id !in s.stale && id !in s.remaining && (id in s.visible <==> id in visible)
    ensures var (pass, after) := Missed(w, s, id, uneditable, chunk);
            pass != Unavailable ==> Account(w, after, visible, existing, first)
    decreases |s.remaining|, 1
  {
    hide Account, Deleted;
    if s.remembered != [] {
      if uneditable {
        var (failed, after, log) := Deleted(w, s.log, s.visible, [id]);
        AccountDeleted(w, s, id, visible, existing, first);
        PassAccount(w, s.(log := log, visible := after, stale := s.stale + failed), chunk, visible, existing, first);
      } else {
        PassAccount(w, s, chunk, visible, existing, first);
      }
    }
  }

  lemma SentAccount(w: World, s: State, chunk: string, visible: map<int, string>, existing: seq<int>, first: int)
    requires Account(w, s, visible, existing, first)
    ensures var (pass, after) := Sent(w, s, chunk);
            Account(w, after, visible, existing, first)
  {
    AccountAsked(w, s, BeforeSend, visible, existing, first);
    if w.gate(|s.log|) {
      var asked := s.log + [BeforeSend];
      AskedMore(w, asked, Sending);
      assert s.log + [BeforeSend, Sending] == asked + [Sending];
      hide LeftInPlace, SomeSent;
      assert forall id :: !LeftAt(w, asked + [Sending], id, |asked|);
    }
  }

  lemma {:induction false} GatedAccount(w: World, s: State, chunks: seq<string>, visible: map<int, string>,
          existing: seq<int>, first: int)
    requires Account(w, s, visible, existing, first)
    ensures var (outcome, after) := EditFrom(w, s, chunks);
            outcome == Gated || outcome == Raised ==> Account(w, after, visible, existing, first)
    decreases |chunks|
  {
    hide Account, EditPass, Sent;
    if chunks != [] {
      PassAccount(w, s, chunks[0], visible, existing, first);
      var (pass, after) := EditPass(w, s, chunks[0]);
      if pass == Exhausted { SentAccount(w, after, chunks[0], visible, existing, first); }
      var (done, next) := ShowChunk(w, s, chunks[0]);
      if done == Applied { GatedAccount(w, next, chunks[1..], visible, existing, first); }
    }
  }

  lemma OnceOnly(ids: seq<int>, i: nat, j: nat)
    requires Distinct(ids) && i < j < |ids|
    ensures ids[i] != ids[j]
  {
    var before, from, id := ids[..j], ids[j..], ids[j];
    assert ids == before + from;
    assert multiset(ids)[id] == multiset(before)[id] + multiset(from)[id];
    assert before[i] in multiset(before) && from[0] in multiset(from);
  }

  lemma StartAccount(w: World, visible: map<int, string>, nextId: int, existing: seq<int>)
    requires Distinct(existing) && forall id <- existing :: id < nextId
    ensures Account(w, Start(visible, nextId, existing), visible, existing, nextId)
  {
    forall i, j | 0 <= i < j < |existing| ensures existing[i] != existing[j] {
      OnceOnly(existing, i, j);
    }
  }

  /**
   An edit that is gated or raises orphans a reply exactly when one of its sends was answered and the reply, visible
   to begin with, was to be deleted and was not: the gate was closed on it or Telegram refused.
   */
  lemma GatedOrphans(w: World, visible: map<int, string>, nextId: int, existing: seq<int>, chunks: seq<string>, id: int)
    requires existing != [] && Distinct(existing)
    requires (forall id <- existing :: id < nextId) && (forall id <- visible.Keys :: id < nextId)
    requires EditFrom(w, Start(visible, nextId, existing), chunks).0 in {Gated, Raised}
    ensures var after := EditFrom(w, Start(visible, nextId, existing), chunks).1;
            Orphaned(after, existing, nextId, id)
            <==> SomeSent(w, after.log) && id in visible && LeftInPlace(w, after.log, id)
  {
    hide EditFrom;
    EditKeepsTrack(w, visible, nextId, existing, chunks);
    StartAccount(w, visible, nextId, existing);
    GatedAccount(w, Start(visible, nextId, existing), chunks, visible, existing, nextId);
    hide LeftInPlace, SomeSent;
    var after := EditFrom(w, Start(visible, nextId, existing), chunks).1;
    assert id in after.visible ==> id in after.visible.Keys;
  }

  /**
   Such a run, gated: the second reply can be neither edited nor deleted, and the gate closes before
   the third chunk.
   */
  lemma GatedOrphanExample()
    ensures var w := OrphaningWorld();
            var (outcome, after) := EditFrom(w, Start(map[1 := "x", 2 := "y"], 3, [1, 2]), ["a", "b", "c"]);
            outcome == Gated && after.tracked == Some([1, 3]) && Orphaned(after, [1, 2], 3, 2)
  {
    hide EditPass, Sent, Finish, OrphaningWorld;
    var w, s0 := OrphaningWorld(), Start(map[1 := "x", 2 := "y"], 3, [1, 2]);
    var s1, s2, s3 := FirstEdited(), SecondRefused(), ThirdSent();
    FirstChunkShown();
    SecondChunkSent();
    ThirdChunkGated();
    assert ["a", "b", "c"][1..] == ["b", "c"] && ["b", "c"][1..] == ["c"];
    var last := s3.(log := s3.log + [BeforeSend]);
    assert EditFrom(w, s3, ["c"]) == (Gated, last);
    assert EditFrom(w, s1, ["b", "c"]) == EditFrom(w, s3, ["c"]);
    assert EditFrom(w, s0, ["a", "b", "c"]) == EditFrom(w, s1, ["b", "c"]);
  }

  function OrphaningWorld(): World
  {
    World(k => k != 8, k => if k == 1 then Edited else Uneditable, (k, id) => Refused(false), k => true)
  }

  function FirstEdited(): State
  {
    State([BeforeEdit(1), Editing(1)], [2], [1], [], map[1 := "a", 2 := "y"], 3, Some([1, 2]))
  }

  function SecondRefused(): State
  {
    var s := FirstEdited();
    s.(log := s.log + [BeforeEdit(2), Editing(2)] + [BeforeDelete([2]), Deleting(2)], remaining := [], stale := [2])
  }

  function ThirdSent(): State
  {
    var s := SecondRefused();
    s.(log := s.log + [BeforeSend, Sending], remembered := [1, 3], visible := map[1 := "a", 2 := "y", 3 := "b"], nextId := 4,
       tracked := Some([1, 3]))
  }

  lemma FirstChunkShown()
    ensures EditPass(OrphaningWorld(), Start(map[1 := "x", 2 := "y"], 3, [1, 2]), "a") == (Applied, FirstEdited())
  {
    var none: seq<int> := [];
    var start := Start(map[1 := "x", 2 := "y"], 3, [1, 2]);
    assert [1, 2][1..] == [2] && none + [1] == [1] && start.log + [BeforeEdit(1), Editing(1)] == FirstEdited().log;
    assert OrphaningWorld().gate(0) && OrphaningWorld().edit(1) == Edited;
    assert map[1 := "x", 2 := "y"][1 := "a"] == map[1 := "a", 2 := "y"];
  }

  lemma SecondChunkSent()
    ensures EditPass(OrphaningWorld(), FirstEdited(), "b") == (Exhausted, SecondRefused())
    ensures Sent(OrphaningWorld(), SecondRefused(), "b") == (Applied, ThirdSent())
  {
    hide Deleted;
    var w, s1, s2 := OrphaningWorld(), FirstEdited(), SecondRefused();
    var none: seq<int> := [];
    assert [2][1..] == none && none + [2] == [2] && [1] + [3] == [1, 3];
    var missed := s1.(log := s1.log + [BeforeEdit(2), Editing(2)], remaining := none);
    DeletedOne(w, missed.log, missed.visible, 2);
    assert EditPass(w, s2, "b") == (Exhausted, s2);
    assert missed.(log := s2.log, stale := missed.stale + [2]) == s2;
    assert Missed(w, missed, 2, true, "b") == (Exhausted, s2);
    assert s2.visible[3 := "b"] == map[1 := "a", 2 := "y", 3 := "b"];
  }

  lemma ThirdChunkGated()
    ensures ShowChunk(OrphaningWorld(), ThirdSent(), "c")
        == (Closed, ThirdSent().(log := ThirdSent().log + [BeforeSend]))
  {
    assert |ThirdSent().log| == 8;
  }

  // ---------------------------------------------------------------- the loops

  lemma NoneDeleted(w: World, log: seq<Question>, visible: map<int, string>)
    ensures Deleted(w, log, visible, []) == ([], visible, log)
  {
  }

  /** One round of the deletion loop, after some deletions that failed. */
  lemma DeletedNext(w: World, log: seq<Question>, visible: map<int, string>, ids: seq<int>, earlier: seq<int>)
    requires ids != []
    ensures var (failed, after, asked) := Deleted(w, log, visible, ids);
            if !w.gate(|log|) then failed == ids && after == visible && asked == log + [BeforeDelete(ids)]
            else
              var answer := w.delete(|log| + 1, ids[0]);
              var (more, last, all) :=
                Deleted(w, log + [BeforeDelete(ids)] + [Deleting(ids[0])], AfterDelete(answer, visible, ids[0]),
                    ids[1..]);
              && after == last && asked == all
              && earlier + failed == (if answer.Cleared? then earlier else earlier + [ids[0]]) + more
  {
    assert log + [BeforeDelete(ids)] + [Deleting(ids[0])] == log + [BeforeDelete(ids), Deleting(ids[0])];
    if w.gate(|log|) {
      var more := Deleted(w, log + [BeforeDelete(ids), Deleting(ids[0])],
          AfterDelete(w.delete(|log| + 1, ids[0]), visible, ids[0]), ids[1..]).0;
      assert earlier + ([ids[0]] + more) == earlier + [ids[0]] + more;
    }
  }

  /** The bot's view of one post: its chat, its index entry, and the run's lists. */
  class Editor {
    const world: World
    /** What was asked of the world so far. */
    var log: seq<Question>
    var visible: map<int, string>
    var nextId: int
    var tracked: Option<seq<int>>
    var remaining: seq<int>
    var remembered: seq<int>
    var stale: seq<int>

    function Now(): State
      reads this
    {
      State(log, remaining, remembered, stale, visible, nextId, tracked)
    }

    constructor (world: World, visible: map<int, string>, nextId: int, tracked: Option<seq<int>>)
      ensures this.world == world && Now() == State([], [], [], [], visible, nextId, tracked)
    {
      this.world, this.visible, this.nextId, this.tracked := world, visible, nextId, tracked;
      log, remaining, remembered, stale := [], [], [], [];
    }

    /** `_passes_final_delivery_gate`. */
    method Gate(question: Question) returns (open: bool)
      modifies `log
      ensures open == world.gate(|old(log)|) && log == old(log) + [question]
    {
      open := world.gate(|log|);
      log := log + [question];
    }

    /** `_delete_reply_chunks`. */
    method DeleteReplyChunks(ids: seq<int>) returns (failed: seq<int>)
      modifies `log, `visible
      ensures (failed, visible, log) == Deleted(world, old(log), old(visible), ids)
    {
      hide Deleted, AfterDelete;
      failed := [];
      ghost var all := Deleted(world, log, visible, ids);
      assert ids[0..] == ids && [] + all.0 == all.0;
      for index := 0 to |ids|
        invariant var rest := Deleted(world, log, visible, ids[index..]);
                  all.0 == failed + rest.0 && all.1 == rest.1 && all.2 == rest.2
      {
        ghost var rest := ids[index..];
        assert rest[0] == ids[index] && rest[1..] == ids[index + 1..];
        DeletedNext(world, log, visible, rest, failed);
        var open := Gate(BeforeDelete(ids[index..]));
        if !open { return failed + ids[index..]; }
        var answer := world.delete(|log|, ids[index]);
        log := log + [Deleting(ids[index])];
        visible := AfterDelete(answer, visible, ids[index]);
        if answer.Refused? { failed := failed + [ids[index]]; }
      }
      assert ids[|ids|..] == [] && failed + [] == failed;
      NoneDeleted(world, log, visible);
    }

    /** The inner loop of `_edit_reply_chunks` on one chunk, up to its `else`. */
    method EditOne(chunk: string) returns (pass: Pass)
      modifies `log, `visible, `tracked, `remaining, `remembered, `stale
      ensures (pass, Now()) == EditPass(world, old(Now()), chunk)
    {
      while remaining != []
        invariant EditPass(world, Now(), chunk) == EditPass(world, old(Now()), chunk)
        invariant nextId == old(nextId)
        decreases |remaining|
      {
        var id := remaining[0];
        ghost var before := log;
        var open := Gate(BeforeEdit(id));
        if !open { return Closed; }
        remaining := remaining[1..];
        var answer := world.edit(|log|);
        log := log + [Editing(id)];
        assert log == before + [BeforeEdit(id), Editing(id)];
        if answer == EditError { return Failed; }
        if answer == Edited {
          visible := visible[id := chunk];
          remembered := remembered + [id];
          return Applied;
        }
        var uneditable := answer == Uneditable;
        if !uneditable { visible := visible - {id}; }
        if uneditable && remembered != [] {
          var failed := DeleteReplyChunks([id]);
          stale := stale + failed;
          continue;
        }
        if remembered == [] {
          var failed := DeleteReplyChunks((if uneditable then [id] else []) + remaining);
          tracked := Remember(failed);
          remaining, stale := [], failed;
          return Unavailable;
        }
      }
      pass := Exhausted;
    }

    /** The `else` of the inner loop. */
    method SendOne(chunk: string) returns (pass: Pass)
      modifies `log, `visible, `nextId, `tracked, `remembered
      ensures (pass, Now()) == Sent(world, old(Now()), chunk)
    {
      ghost var before := log;
      var open := Gate(BeforeSend);
      if !open { return Closed; }
      var delivered := world.send(|log|);
      log := log + [Sending];
      assert log == before + [BeforeSend, Sending];
      if !delivered { return Failed; }
      visible := visible[nextId := chunk];
      remembered, nextId := remembered + [nextId], nextId + 1;
      tracked := Some(remembered);
      pass := Applied;
    }

    /** `_edit_reply_chunks`. */
    method EditReplyChunks(existing: seq<int>, chunks: seq<string>) returns (outcome: Outcome)
      modifies `log, `visible, `nextId, `tracked, `remaining, `remembered, `stale
      ensures existing == [] ==> outcome == EditTargetUnavailable && tracked == old(tracked) && visible == old(visible)
      ensures existing != [] ==>
                (outcome, Now()) == EditFrom(world, old(Now()).(remaining := existing, remembered := [], stale := []), chunks)
    {
      if existing == [] { return EditTargetUnavailable; }
      remaining, remembered, stale := existing, [], [];
      ghost var start := Now();
      for i := 0 to |chunks|
        invariant EditFrom(world, Now(), chunks[i..]) == EditFrom(world, start, chunks)
      {
        assert chunks[i..][1..] == chunks[i + 1..];
        var pass := EditOne(chunks[i]);
        if pass == Exhausted { pass := SendOne(chunks[i]); }
        if pass == Closed { return Gated; }
        if pass == Unavailable { return EditTargetUnavailable; }
        if pass == Failed { return Raised; }
      }
      assert chunks[|chunks|..] == [];
      var failed := DeleteReplyChunks(remaining);
      remaining, stale := [], stale + failed;
      tracked := Remember(remembered + stale);
      outcome := if stale == [] then Success else StaleChunksRetained;
    }
  }
}
