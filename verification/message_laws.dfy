/** Laws of the message reducer on one message list: the delete is the
    order-preserving filter, it removes exactly one slot when ids are unique,
    an add keeps ids unique when the new id is fresh, and deleting the message
    just added gives the old list back. */
module MessageLaws {
  import opened ChatState
  import opened Reducers

  /** The filter distributes over concatenation; with `Without([m], id)`
      this pins the filter down, order included. */
  lemma {:induction false} WithoutConcat(a: seq<Message>, b: seq<Message>, id: MessageId)
    ensures Without(a + b, id) == Without(a, id) + Without(b, id)
  {
    if |a| == 0 {
      assert a + b == b;
    } else {
      assert (a + b)[0] == a[0];
      assert (a + b)[1..] == a[1..] + b;
      WithoutConcat(a[1..], b, id);
    }
  }

  /** The filter keeps a message exactly when it was there with another id. */
  lemma {:induction false} WithoutMembers(ms: seq<Message>, id: MessageId)
    ensures forall m :: m in Without(ms, id) <==> m in ms && m.id != id
  {
    if |ms| > 0 {
      WithoutMembers(ms[1..], id);
      assert ms == [ms[0]] + ms[1..];
    }
  }

  /** On a single message the filter keeps it exactly when its id differs. */
  lemma WithoutSingle(m: Message, id: MessageId)
    ensures Without([m], id) == (if m.id == id then [] else [m])
  {
  }

  /** With unique ids, the id of slot `k` occurs in no other slot. */
  lemma SlotIdUnique(ms: seq<Message>, k: int)
    requires Distinct(Ids(ms))
    requires 0 <= k < |ms|
    ensures ms[k].id !in Ids(ms[..k])
    ensures ms[k].id !in Ids(ms[k + 1..])
  {
    var id := ms[k].id;
    forall i | 0 <= i < k ensures Ids(ms[..k])[i] != id {
      assert Ids(ms)[i] == ms[i].id && Ids(ms)[k] == id;
    }
    var post := ms[k + 1..];
    forall i | 0 <= i < |post| ensures Ids(post)[i] != id {
      assert Ids(ms)[k + 1 + i] == post[i].id && Ids(ms)[k] == id;
    }
  }

  /** With unique ids, deleting the id of slot `k` removes that slot and
      nothing else. */
  lemma {:induction false} WithoutRemovesOneSlot(ms: seq<Message>, k: int)
    requires Distinct(Ids(ms))
    requires 0 <= k < |ms|
    ensures Without(ms, ms[k].id) == ms[..k] + ms[k + 1..]
    ensures |Without(ms, ms[k].id)| == |ms| - 1
  {
    var id, m := ms[k].id, ms[k];
    var pre, post := ms[..k], ms[k + 1..];
    SlotIdUnique(ms, k);
    calc {
      Without(ms, id);
      { assert ms == (pre + [m]) + post; }
      Without((pre + [m]) + post, id);
      { WithoutConcat(pre + [m], post, id); }
      Without(pre + [m], id) + Without(post, id);
      { WithoutConcat(pre, [m], id); WithoutSingle(m, id); }
      pre + post;
    }
  }

  /** Filtering keeps ids unique and introduces no id. */
  lemma {:induction false} WithoutKeepsDistinct(ms: seq<Message>, id: MessageId)
    requires Distinct(Ids(ms))
    ensures Distinct(Ids(Without(ms, id)))
    ensures forall x :: x in Ids(Without(ms, id)) ==> x in Ids(ms)
  {
    if |ms| > 0 {
      IdsCons(ms);
      DistinctConcat([ms[0].id], Ids(ms[1..]));
      WithoutKeepsDistinct(ms[1..], id);
      WithoutMembers(ms[1..], id);
      if ms[0].id != id {
        var rest := Without(ms[1..], id);
        assert Without(ms, id) == [ms[0]] + rest;
        IdsConcat([ms[0]], rest);
        assert Ids([ms[0]]) == [ms[0].id];
        DistinctConcat([ms[0].id], Ids(rest));
      }
    }
  }

  /** Appending a message with a fresh id keeps ids unique. */
  lemma AddKeepsDistinct(ms: seq<Message>, threadId: ThreadId, text: string, freshId: MessageId, now: int)
    requires Distinct(Ids(ms))
    requires freshId !in Ids(ms)
    ensures Distinct(Ids(MessagesReducer(Some(ms), AddMessage(threadId, text), freshId, now)))
  {
    var m := Message(text, now, freshId);
    assert MessagesReducer(Some(ms), AddMessage(threadId, text), freshId, now) == ms + [m];
    IdsConcat(ms, [m]);
    assert Ids([m]) == [freshId];
    DistinctConcat(Ids(ms), [freshId]);
  }

  /** Add a message under a fresh id, then delete that id: the list comes back. */
  lemma AddThenDeleteMessages(ms: seq<Message>, threadId: ThreadId, text: string,
                              freshId: MessageId, now: int, laterId: MessageId, later: int)
    requires freshId !in Ids(ms)
    ensures MessagesReducer(Some(MessagesReducer(Some(ms), AddMessage(threadId, text), freshId, now)),
                            DeleteMessage(freshId), laterId, later) == ms
  {
    var m := Message(text, now, freshId);
    assert MessagesReducer(Some(ms), AddMessage(threadId, text), freshId, now) == ms + [m];
    WithoutConcat(ms, [m], freshId);
    WithoutSingle(m, freshId);
  }
}
