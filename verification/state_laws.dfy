/** Laws of the root reducer on whole states: the thread set is static,
    message ids stay unique when generated ids are fresh, adding a message
    and deleting it again restores the state, and the concrete walk-throughs
    from the store's initial state. */
module StateLaws {
  import opened ChatState
  import opened Reducers
  import opened MessageLaws

  /** No step adds, removes, reorders or renames a thread. */
  lemma ReduceKeepsThreadIdentities(prev: Option<State>, action: Action, freshId: MessageId, now: int)
    requires Reduce(prev, action, freshId, now).Ok?
    ensures var ts := Reduce(prev, action, freshId, now).value.threads;
      && |ts| == |ThreadsOf(prev)|
      && forall j :: 0 <= j < |ts| ==> ts[j].id == ThreadsOf(prev)[j].id && ts[j].title == ThreadsOf(prev)[j].title
  {
  }

  /** The ids of a thread list split around slot `k`. */
  lemma {:induction false} AllMessageIdsSplit(ts: seq<Thread>, k: int)
    requires 0 <= k < |ts|
    ensures AllMessageIds(ts) == AllMessageIds(ts[..k]) + Ids(ts[k].messages) + AllMessageIds(ts[k + 1..])
  {
    var t := ts[k];
    assert ts == ts[..k] + [t] + ts[k + 1..];
    AllMessageIdsConcat(ts[..k] + [t], ts[k + 1..]);
    AllMessageIdsConcat(ts[..k], [t]);
    assert AllMessageIds([t]) == Ids(t.messages) by {
      assert [t][1..] == [];
    }
  }

  /** Replacing the middle part of a duplicate-free sequence by a
      duplicate-free part that shares nothing with the rest keeps it
      duplicate-free. */
  lemma DistinctReplaceMiddle<T>(p: seq<T>, m: seq<T>, m': seq<T>, q: seq<T>)
    requires Distinct(p + m + q)
    requires Distinct(m')
    requires forall x :: x in m' ==> x !in p && x !in q
    ensures Distinct(p + m' + q)
  {
    DistinctConcat(p + m, q);
    DistinctConcat(p, m);
    DistinctConcat(p, m');
    DistinctConcat(p + m', q);
  }

  /** A step that succeeds keeps message ids unique across the store, provided
      the id generated for an added message is fresh. */
  lemma ReducePreservesUniqueMessageIds(s: State, action: Action, freshId: MessageId, now: int)
    requires UniqueMessageIds(s.threads)
    requires action.AddMessage? ==> freshId !in AllMessageIds(s.threads)
    requires Reduce(Some(s), action, freshId, now).Ok?
    ensures UniqueMessageIds(Reduce(Some(s), action, freshId, now).value.threads)
  {
    if IsMessageAction(action) {
      var ts := s.threads;
      var ts' := Reduce(Some(s), action, freshId, now).value.threads;
      var k := FindThreadIndex(ts, action);
      var ms := ts[k].messages;
      var ms' := ts'[k].messages;
      assert ms' == MessagesReducer(Some(ms), action, freshId, now);
      assert ts' == ts[..k] + [ts'[k]] + ts[k + 1..];
      assert ts'[..k] == ts[..k] && ts'[k + 1..] == ts[k + 1..];
      AllMessageIdsSplit(ts, k);
      AllMessageIdsSplit(ts', k);
      var p, q := AllMessageIds(ts[..k]), AllMessageIds(ts[k + 1..]);
      DistinctConcat(p + Ids(ms), q);
      DistinctConcat(p, Ids(ms));
      if action.AddMessage? {
        AddKeepsDistinct(ms, action.threadId, action.text, freshId, now);
        IdsConcat(ms, [Message(action.text, now, freshId)]);
        assert Ids([Message(action.text, now, freshId)]) == [freshId];
      } else {
        WithoutKeepsDistinct(ms, action.id);
      }
      DistinctReplaceMiddle(p, Ids(ms), Ids(ms'), q);
    }
  }

  /** Adding a message under a fresh id and then deleting that id restores
      the whole state. */
  lemma AddThenDeleteRestoresState(s: State, threadId: ThreadId, text: string,
                                   freshId: MessageId, now: int, laterId: MessageId, later: int)
    requires freshId !in AllMessageIds(s.threads)
    requires Reduce(Some(s), AddMessage(threadId, text), freshId, now).Ok?
    ensures var added := Reduce(Some(s), AddMessage(threadId, text), freshId, now).value;
      Reduce(Some(added), DeleteMessage(freshId), laterId, later) == Ok(s)
  {
    var add, del := AddMessage(threadId, text), DeleteMessage(freshId);
    var ts := s.threads;
    var added := Reduce(Some(s), add, freshId, now).value;
    var ts1 := added.threads;
    var k := FindThreadIndex(ts, add);
    var ms := ts[k].messages;
    var m := Message(text, now, freshId);
    assert ts1[k].messages == ms + [m];
    IdsConcat(ms, [m]);
    assert Ids([m]) == [freshId];
    assert Targets(ts1[k], del);
    forall j | 0 <= j < k ensures !Targets(ts1[j], del) {
      if freshId in Ids(ts[j].messages) {
        ThreadIdsInAll(ts, j, freshId);
      }
    }
    var k' := FindThreadIndex(ts1, del);
    assert k' == k;
    assert freshId !in Ids(ms) by {
      if freshId in Ids(ms) {
        ThreadIdsInAll(ts, k, freshId);
      }
    }
    AddThenDeleteMessages(ms, threadId, text, freshId, now, laterId, later);
    var ts2 := Reduce(Some(added), del, laterId, later).value.threads;
    assert ts2[k] == ts[k];
    assert ts2 == ts;
  }

  /** Opening the second seeded thread selects it and leaves the threads alone. */
  lemma OpenSecondSeededThread(freshId: MessageId, now: int)
    ensures Reduce(Some(InitialState), OpenThread("2-be91"), freshId, now) == Ok(State("2-be91", SeededThreads))
  {
  }

  /** Adding a message to the first seeded thread gives it exactly that
      message and leaves the second thread as it was. */
  lemma AddToFirstSeededThread(text: string, freshId: MessageId, now: int)
    ensures Reduce(Some(InitialState), AddMessage("1-fca2", text), freshId, now)
         == Ok(State("1-fca2", [Thread("1-fca2", "Buzz Aldrin", [Message(text, now, freshId)]), SeededThreads[1]]))
  {
    var add := AddMessage("1-fca2", text);
    assert Targets(SeededThreads[0], add);
    assert FindThreadIndex(SeededThreads, add) == 0;
    var ms := MessagesReducer(Some([]), add, freshId, now);
    assert ms == [Message(text, now, freshId)];
    var ts := Reduce(Some(InitialState), add, freshId, now).value.threads;
    assert ts == [Thread("1-fca2", "Buzz Aldrin", ms), SeededThreads[1]];
  }

  /** Deleting the message just added to the first seeded thread leaves it
      empty again. */
  lemma AddThenDeleteOnInitialState(text: string, freshId: MessageId, now: int, laterId: MessageId, later: int)
    ensures var added := Reduce(Some(InitialState), AddMessage("1-fca2", text), freshId, now);
      && added.Ok?
      && Reduce(Some(added.value), DeleteMessage(freshId), laterId, later) == Ok(InitialState)
  {
    AddToFirstSeededThread(text, freshId, now);
    assert AllMessageIds(SeededThreads) == [];
    AddThenDeleteRestoresState(InitialState, "1-fca2", text, freshId, now, laterId, later);
  }
}
