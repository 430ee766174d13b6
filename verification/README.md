# Chat store reducers, modelled in Dafny

This project models the state core of a small single-page chat application
built on a Redux store. The whole application state is one tree:

- a `State` holds the `activeThreadId` and an ordered list of `threads`;
- a `Thread` has an `id`, a `title` and an ordered list of `messages`;
- a `Message` has a `text`, a `timestamp` and an `id`.

Every change goes through the root reducer, a pure function from the previous
state and an action to the next state. The actions form a closed sum:
`OpenThread(id)`, `AddMessage(threadId, text)`, `DeleteMessage(id)`, and
`Other` for every other action type. `Other` includes the initialisation
action the store dispatches when it is created.

The root reducer builds each slice of the next state with its own reducer:

- the active-thread reducer selects a thread on `OpenThread`;
- the thread-list reducer finds the thread a message action targets;
- it replaces exactly that slot of the thread list;
- the message reducer appends to or filters that thread's messages.

The tab-bar selector `mapStateToTabsProps` maps the state to one tab per
thread and flags the tab of the active thread.

Files:

- `chat_state.dfy` (module `ChatState`): the datatypes, the seeded defaults and the id/distinctness notions.
- `reducers.dfy` (module `Reducers`): the reducers and the thread lookup.
- `message_laws.dfy` (module `MessageLaws`): laws of the message reducer on one list.
- `state_laws.dfy` (module `StateLaws`): laws of the root reducer on whole states, and the walk-throughs from the initial state.
- `tabs.dfy` (module `Tabs`): the tab-bar selector and its laws.

Modelling decisions:

- A reducer called with an `undefined` previous value uses its default
  parameter. The model takes an `Option` and falls back to the same
  defaults: the active thread id `"1-fca2"`, two seeded threads with empty
  message lists, and an empty message list.
- The new message's id comes from `uuid.v4()` and its timestamp from
  `Date.now()`. Both are parameters `freshId` and `now` of the message, thread-list and root reducers.
  The reducers do not require the id to be fresh, since the code does not
  check it. The laws that need freshness take it as a hypothesis:
  `freshId` occurs nowhere in the store.
- A message action whose target thread is missing makes `findIndex` return
  -1. The code then reads `.messages` of `state[-1]`, which is `undefined`,
  and throws. The model returns `Failure(ThreadNotFound)` for the whole step.
- The second seeded thread's title is `"Michael Collines"`, spelled as the
  code spells it.
- Purity holds by construction: every reducer is a Dafny function.

## Model

| member | source | states |
|---|---|---|
| `Reducers.Reduce` | src/App.js:7-12 | The step fails exactly when a message action targets no thread. `OpenThread(id)` gives `State(id, threads)` with the threads unchanged. `Other` changes nothing; with no previous state it yields the seeded initial state. A message action keeps `activeThreadId`, and its threads are the thread-list reducer's result on the old threads alone. |
| `Reducers.ActiveThreadIdReducer` | src/App.js:19-25 | `OpenThread` yields the action's id verbatim, without checking it. Every other action keeps the previous id, which defaults to `"1-fca2"`. |
| `Reducers.ContainsMessageId` | src/App.js:33 | The `find` callback of the delete lookup is true exactly when some message of the list carries the id. |
| `Reducers.Matches` | src/App.js:30-33 | The lookup's executable per-thread test agrees with `Targets`. An add matches on thread id; a delete matches a thread holding a message with that id. |
| `Reducers.FindIndexFrom` | src/App.js:30-33 | The linear search from `from` yields -1 or an index at or after `from` that the action targets. No targeted index lies between `from` and the result. |
| `Reducers.FindThreadIndex` | src/App.js:27-36 | For an add, the result is the least index whose thread id is `threadId`. For a delete, it is the least index of a thread containing a message with that id. It is -1 exactly when no thread qualifies. |
| `Reducers.ThreadsReducer` | src/App.js:38-71 | A missing list defaults to the two seeded threads. A non-message action keeps the list. A message action fails exactly when no thread is targeted. Otherwise the result has the same length, every slot other than the found index is unchanged, and the found thread keeps its id and title while its messages go through the message reducer. |
| `Reducers.MessagesReducer` | src/App.js:73-90 | An add grows the list by exactly one and keeps the old messages as an unchanged prefix. The last element is `Message(text, now, freshId)`. A delete yields the filter `Without`. Any other action keeps the list, which defaults to empty. |
| `Reducers.Without` | src/App.js:83-85 | The delete filter never grows the list. The deleted id is gone afterwards, and the list is unchanged when no message carries the id. |
| `MessageLaws.WithoutConcat` | src/App.js:84 | The filter distributes over concatenation, so it preserves the relative order of the kept messages. |
| `MessageLaws.WithoutMembers` | src/App.js:84 | A message is in the filtered list exactly when it is in the original list and its id differs from the deleted id. |
| `MessageLaws.WithoutSingle` | src/App.js:84 | On a one-message list, the filter keeps the message exactly when its id differs from the deleted id. |
| `MessageLaws.WithoutRemovesOneSlot` | src/App.js:84 | When ids are unique, deleting the id of slot `k` removes that slot and nothing else, so the length drops by exactly one. |
| `MessageLaws.WithoutKeepsDistinct` | src/App.js:84 | Filtering keeps message ids unique and introduces no new id. |
| `MessageLaws.AddKeepsDistinct` | src/App.js:75-81 | Appending a message under a fresh id keeps the list's ids unique. |
| `MessageLaws.AddThenDeleteMessages` | src/App.js:75-85 | If the id is fresh for the list, adding a message and then deleting that id gives back the original list. |
| `StateLaws.ReduceKeepsThreadIdentities` | src/App.js:51-70 | A successful step keeps the number of threads and each thread's id and title, so the thread set is static. |
| `StateLaws.ReducePreservesUniqueMessageIds` | src/App.js:51-85 | If message ids are unique across the store, they stay unique after a successful step. An add needs a generated id absent from the store. |
| `StateLaws.AddThenDeleteRestoresState` | src/App.js:27-85 | Adding a message under an id absent from the store and then deleting that id restores the whole state. The delete finds the same thread the add changed. |
| `StateLaws.OpenSecondSeededThread` | src/App.js:19-25 | From the initial state, opening `"2-be91"` selects it and leaves the seeded threads unchanged. |
| `StateLaws.AddToFirstSeededThread` | src/App.js:38-81 | From the initial state, adding to `"1-fca2"` gives that thread exactly the new message and leaves the second thread as it was. |
| `StateLaws.AddThenDeleteOnInitialState` | src/App.js:38-85 | From the initial state, adding to `"1-fca2"` and deleting the new id returns to the initial state. |
| `Tabs.ToTabs` | src/App.js:126-132 | There is one tab per thread, in order. Each tab has the thread's title and id, and it is active exactly when its id is the active id. |
| `Tabs.MapStateToTabsProps` | src/App.js:125-137 | The selector gives the tabs of the state's threads, in order, with the same titles and ids. A tab is active exactly when its id equals `activeThreadId`. |
| `Tabs.AtMostOneActiveTab` | src/App.js:129 | With unique thread ids, at most one tab is active. |
| `Tabs.ActiveThreadHasActiveTab` | src/App.js:129 | When the active id names thread `k`, tab `k` is active. With unique thread ids it is the only active tab. |
| `Tabs.MessageActionsKeepTabs` | src/App.js:125-137 | A successful add or delete leaves the tab bar unchanged. |
| `Tabs.OpenThreadMovesActiveTab` | src/App.js:125-137 | After `OpenThread(id)` the tabs keep their titles and ids, and a tab is active exactly when its id is `id`. |

## Left out

- The React components `App`, `Tabs`, `TextFieldSubmit`, `MessageList`, `Thread` and `WrappedApp`, with their markup. They only render the state.
- The `react-redux` wiring: `connect`, `mapDispatchToTabsProps`, `mapDispatchToThreadProps` and `mergeThreadProps`. These only build action objects and pass them to `dispatch`.
- `mapStateToThreadProps` is left out. It is a `find` over the threads used only for rendering.
- The store from `createStore(reducer)` is not modelled: dispatch, subscription and notification belong to a foreign library.
- `uuid.v4()` and `Date.now()` are nondeterministic foreign calls. They become the parameters `freshId` and `now`. The uniqueness that uuid provides is a hypothesis of the laws, not something the model proves.
- The stylesheet import and the commented-out example state tree are not modelled.
- `Reducers.FindThreadIndex`: for any action other than an add or a delete, the code returns `undefined`. The only caller never passes such an action, so the model requires a message action.
- Action objects with missing or ill-typed fields cannot be written down, because the closed action datatype has none.
- Ids are plain strings, so the format of a uuid is not modelled. Timestamps are unbounded integers.
