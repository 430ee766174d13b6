/** The reducers of the chat store: the message reducer, the thread lookup,
    the thread-list reducer, the active-thread reducer and the root reducer
    that assembles the two slices. The environment's id generator and clock
    become the parameters `freshId` and `now`. */
module Reducers {
  import opened ChatState

  /** Order-preserving filter: the messages whose id is not `id`. */
  function Without(ms: seq<Message>, id: MessageId): (r: seq<Message>)
    ensures |r| <= |ms|
    ensures id !in Ids(r)
    ensures id !in Ids(ms) ==> r == ms
  {
    if |ms| == 0 then []
    else
      IdsCons(ms);
      if ms[0].id == id then Without(ms[1..], id)
      else
        var r := [ms[0]] + Without(ms[1..], id);
        assert r[1..] == Without(ms[1..], id);
        IdsCons(r);
        r
  }

  /** The message reducer: an add appends one new message, a delete drops
      every message with the given id, anything else keeps the list. An
      absent list is the empty list. */
  function MessagesReducer(prev: Option<seq<Message>>, action: Action, freshId: MessageId, now: int): (r: seq<Message>)
    ensures action.AddMessage? ==>
      var ms := prev.GetOr([]);
      |r| == |ms| + 1 && r[..|ms|] == ms && r[|ms|] == Message(action.text, now, freshId)
    ensures action.DeleteMessage? ==> r == Without(prev.GetOr([]), action.id)
    ensures !IsMessageAction(action) ==> r == prev.GetOr([])
  {
    var ms := prev.GetOr([]);
    match action
    case AddMessage(_, text) => ms + [Message(text, now, freshId)]
    case DeleteMessage(id) => Without(ms, id)
    case _ => ms
  }

  /** The search callback of the delete lookup: does some message carry `id`? */
  function ContainsMessageId(ms: seq<Message>, id: MessageId): (b: bool)
    ensures b <==> id in Ids(ms)
  {
    if |ms| == 0 then false
    else
      IdsCons(ms);
      ms[0].id == id || ContainsMessageId(ms[1..], id)
  }

  /** The thread a message action is aimed at: the thread with that id for an
      add, a thread holding a message with that id for a delete. */
  ghost predicate Targets(t: Thread, action: Action) {
    match action
    case AddMessage(threadId, _) => t.id == threadId
    case DeleteMessage(id) => id in Ids(t.messages)
    case _ => false
  }

  /** The executable test the lookup applies to each thread. */
  function Matches(t: Thread, action: Action): (b: bool)
    requires IsMessageAction(action)
    ensures b <==> Targets(t, action)
  {
    match action
    case AddMessage(threadId, _) => t.id == threadId
    case DeleteMessage(id) => ContainsMessageId(t.messages, id)
  }

  /** Linear search from index `from` on. */
  function FindIndexFrom(threads: seq<Thread>, action: Action, from: nat): (r: int)
    requires IsMessageAction(action)
    requires from <= |threads|
    ensures r == -1 || from <= r < |threads|
    ensures r != -1 ==> Targets(threads[r], action)
    ensures forall j :: from <= j < |threads| && (r == -1 || j < r) ==> !Targets(threads[j], action)
    decreases |threads| - from
  {
    if from == |threads| then -1
    else if Matches(threads[from], action) then from
    else FindIndexFrom(threads, action, from + 1)
  }

  /** The index of the first thread the action targets, or -1. */
  function FindThreadIndex(threads: seq<Thread>, action: Action): (r: int)
    requires IsMessageAction(action)
    ensures -1 <= r < |threads|
    ensures r != -1 ==> Targets(threads[r], action)
    ensures r != -1 ==> forall j :: 0 <= j < r ==> !Targets(threads[j], action)
    ensures r == -1 <==> forall j :: 0 <= j < |threads| ==> !Targets(threads[j], action)
  {
    FindIndexFrom(threads, action, 0)
  }

  /** The thread-list reducer. An absent list is the two seeded threads. A
      message action replaces the first thread it targets by a copy whose
      messages went through the message reducer; when no thread is targeted
      the step fails. Any other action keeps the list. */
  function ThreadsReducer(prev: Option<seq<Thread>>, action: Action, freshId: MessageId, now: int): (r: Result<seq<Thread>>)
    ensures !IsMessageAction(action) ==> r == Ok(prev.GetOr(SeededThreads))
    ensures r.Failure? <==>
      var s := prev.GetOr(SeededThreads);
      IsMessageAction(action) && forall j :: 0 <= j < |s| ==> !Targets(s[j], action)
    ensures IsMessageAction(action) && r.Ok? ==>
      var s := prev.GetOr(SeededThreads);
      var k := FindThreadIndex(s, action);
      && 0 <= k < |s|
      && |r.value| == |s|
      && (forall j :: 0 <= j < |s| && j != k ==> r.value[j] == s[j])
      && r.value[k] == Thread(s[k].id, s[k].title, MessagesReducer(Some(s[k].messages), action, freshId, now))
  {
    var threads := prev.GetOr(SeededThreads);
    if IsMessageAction(action) then
      var k := FindThreadIndex(threads, action);
      if k == -1 then Failure(ThreadNotFound)
      else
        var oldThread := threads[k];
        var newThread := oldThread.(messages := MessagesReducer(Some(oldThread.messages), action, freshId, now));
        Ok(threads[..k] + [newThread] + threads[k + 1..])
    else Ok(threads)
  }

  /** The active-thread reducer: an open selects the given id, unchecked;
      anything else keeps the previous id, by default the first seeded one. */
  function ActiveThreadIdReducer(prev: Option<ThreadId>, action: Action): (r: ThreadId)
    ensures action.OpenThread? ==> r == action.id
    ensures !action.OpenThread? ==> r == prev.GetOr(DefaultActiveThreadId)
  {
    match action
    case OpenThread(id) => id
    case _ => prev.GetOr(DefaultActiveThreadId)
  }

  /** The active thread id the root reducer starts from. */
  function ActiveOf(prev: Option<State>): ThreadId {
    if prev.Some? then prev.value.activeThreadId else DefaultActiveThreadId
  }

  /** The thread list the root reducer starts from. */
  function ThreadsOf(prev: Option<State>): seq<Thread> {
    if prev.Some? then prev.value.threads else SeededThreads
  }

  /** The root reducer: each slice of the next state comes from its own
      reducer, fed only the same slice of the previous state. A failing
      thread-list reducer makes the whole step fail. */
  function Reduce(prev: Option<State>, action: Action, freshId: MessageId, now: int): (r: Result<State>)
    ensures r.Failure? <==>
      IsMessageAction(action) && forall j :: 0 <= j < |ThreadsOf(prev)| ==> !Targets(ThreadsOf(prev)[j], action)
    ensures action.OpenThread? ==> r == Ok(State(action.id, ThreadsOf(prev)))
    ensures action.Other? ==> r == Ok(State(ActiveOf(prev), ThreadsOf(prev)))
    ensures IsMessageAction(action) && r.Ok? ==>
      && r.value.activeThreadId == ActiveOf(prev)
      && Ok(r.value.threads) == ThreadsReducer(Some(ThreadsOf(prev)), action, freshId, now)
  {
    var active := ActiveThreadIdReducer(if prev.Some? then Some(prev.value.activeThreadId) else None, action);
    var prevThreads := if prev.Some? then Some(prev.value.threads) else None;
    assert prevThreads.GetOr(SeededThreads) == ThreadsOf(prev);
    var threads := ThreadsReducer(prevThreads, action, freshId, now);
    match threads
    case Ok(ts) => Ok(State(active, ts))
    case Failure(e) => Failure(e)
  }
}
