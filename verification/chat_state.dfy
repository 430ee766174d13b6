/** The state tree of the chat store: messages, threads, the active thread id,
    and the actions the reducers consume. Also the few sequence notions
    (the ids of a message list, distinctness) the laws about it are stated in. */
module ChatState {

  /** `None` stands for JavaScript's `undefined`: a reducer called without a
      previous value falls back to its default parameter. */
  datatype Option<+T> = None | Some(value: T) {
    function GetOr(default: T): T {
      match this
      case Some(v) => v
      case None => default
    }
  }

  /** The one way a reducer fails: a message action whose target thread does
      not exist, so the lookup yields -1 and reading the messages of the
      thread at index -1 throws. */
  datatype ReduceError = ThreadNotFound

  datatype Result<+T> = Ok(value: T) | Failure(error: ReduceError)

  type ThreadId = string
  type MessageId = string

  /** A message; `timestamp` is a millisecond clock reading. */
  datatype Message = Message(text: string, timestamp: int, id: MessageId)

  datatype Thread = Thread(id: ThreadId, title: string, messages: seq<Message>)

  datatype State = State(activeThreadId: ThreadId, threads: seq<Thread>)

  /** The action vocabulary. `Other` is any action of another type, among them
      the initialisation action the store dispatches when it is created. */
  datatype Action =
    | OpenThread(id: ThreadId)
    | AddMessage(threadId: ThreadId, text: string)
    | DeleteMessage(id: MessageId)
    | Other

  /** The two actions that touch the thread list. */
  predicate IsMessageAction(a: Action) {
    a.AddMessage? || a.DeleteMessage?
  }

  /** Default of the active-thread slice. */
  const DefaultActiveThreadId: ThreadId := "1-fca2"

  /** Default of the thread-list slice: two threads with empty message lists.
      The second title is spelled as the application spells it. */
  const SeededThreads: seq<Thread> :=
    [Thread("1-fca2", "Buzz Aldrin", []), Thread("2-be91", "Michael Collines", [])]

  /** The state the store starts from. */
  const InitialState: State := State(DefaultActiveThreadId, SeededThreads)

  /** The ids of a message list, in order. */
  function Ids(ms: seq<Message>): seq<MessageId> {
    seq(|ms|, i requires 0 <= i < |ms| => ms[i].id)
  }

  /** The ids of a thread list, in order. */
  function ThreadIds(ts: seq<Thread>): seq<ThreadId> {
    seq(|ts|, i requires 0 <= i < |ts| => ts[i].id)
  }

  /** The ids of every message of every thread, thread by thread. */
  function AllMessageIds(ts: seq<Thread>): seq<MessageId> {
    if |ts| == 0 then [] else Ids(ts[0].messages) + AllMessageIds(ts[1..])
  }

  /** No element occurs twice. */
  ghost predicate Distinct<T>(s: seq<T>) {
    forall i, j :: 0 <= i < j < |s| ==> s[i] != s[j]
  }

  /** Every message id in the store is unique across all threads. */
  ghost predicate UniqueMessageIds(ts: seq<Thread>) {
    Distinct(AllMessageIds(ts))
  }

  lemma DistinctConcat<T>(a: seq<T>, b: seq<T>)
    ensures Distinct(a + b) <==> Distinct(a) && Distinct(b) && (forall x :: x in a ==> x !in b)
  {
    var c := a + b;
    if Distinct(c) {
      forall i, j | 0 <= i < j < |a| ensures a[i] != a[j] {
        assert c[i] == a[i] && c[j] == a[j];
      }
      forall i, j | 0 <= i < j < |b| ensures b[i] != b[j] {
        assert c[|a| + i] == b[i] && c[|a| + j] == b[j];
      }
      forall i, j | 0 <= i < |a| && 0 <= j < |b| ensures a[i] != b[j] {
        assert c[i] == a[i] && c[|a| + j] == b[j];
      }
    }
    if Distinct(a) && Distinct(b) && (forall x :: x in a ==> x !in b) {
      forall i, j | 0 <= i < j < |c| ensures c[i] != c[j] {
        if j < |a| {
          assert c[i] == a[i] && c[j] == a[j];
        } else if |a| <= i {
          assert c[i] == b[i - |a|] && c[j] == b[j - |a|];
        } else {
          assert c[i] == a[i] && a[i] in a;
          assert c[j] == b[j - |a|] && b[j - |a|] in b;
        }
      }
    }
  }

  lemma IdsCons(ms: seq<Message>)
    requires |ms| > 0
    ensures Ids(ms) == [ms[0].id] + Ids(ms[1..])
  {
  }

  lemma IdsConcat(a: seq<Message>, b: seq<Message>)
    ensures Ids(a + b) == Ids(a) + Ids(b)
  {
  }

  lemma {:induction false} AllMessageIdsConcat(a: seq<Thread>, b: seq<Thread>)
    ensures AllMessageIds(a + b) == AllMessageIds(a) + AllMessageIds(b)
  {
    if |a| == 0 {
      assert a + b == b;
    } else {
      assert (a + b)[1..] == a[1..] + b;
      AllMessageIdsConcat(a[1..], b);
    }
  }

  /** A message id held by any one thread is among the ids of the store. */
  lemma {:induction false} ThreadIdsInAll(ts: seq<Thread>, j: int, x: MessageId)
    requires 0 <= j < |ts|
    requires x in Ids(ts[j].messages)
    ensures x in AllMessageIds(ts)
  {
    if j > 0 {
      ThreadIdsInAll(ts[1..], j - 1, x);
    }
  }
}
