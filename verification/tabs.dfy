/** The tab-bar selector: one tab per thread, flagged active when it names
    the active thread, and what the reducers do to the tabs. */
module Tabs {
  import opened ChatState
  import opened Reducers
  import opened StateLaws

  datatype Tab = Tab(title: string, active: bool, id: ThreadId)

  datatype TabsProps = TabsProps(tabs: seq<Tab>)

  /** The tab of each thread, in thread order. */
  function ToTabs(ts: seq<Thread>, activeThreadId: ThreadId): (tabs: seq<Tab>)
    ensures |tabs| == |ts|
    ensures forall i :: 0 <= i < |ts| ==>
      && tabs[i].title == ts[i].title
      && tabs[i].id == ts[i].id
      && (tabs[i].active <==> ts[i].id == activeThreadId)
  {
    if |ts| == 0 then []
    else [Tab(ts[0].title, ts[0].id == activeThreadId, ts[0].id)] + ToTabs(ts[1..], activeThreadId)
  }

  /** The properties the tab bar is rendered from. */
  function MapStateToTabsProps(state: State): (r: TabsProps)
    ensures |r.tabs| == |state.threads|
    ensures forall i :: 0 <= i < |r.tabs| ==>
      && r.tabs[i].title == state.threads[i].title
      && r.tabs[i].id == state.threads[i].id
      && (r.tabs[i].active <==> state.threads[i].id == state.activeThreadId)
  {
    TabsProps(ToTabs(state.threads, state.activeThreadId))
  }

  /** With unique thread ids at most one tab is active. */
  lemma AtMostOneActiveTab(state: State)
    requires Distinct(ThreadIds(state.threads))
    ensures var tabs := MapStateToTabsProps(state).tabs;
      forall i, j :: 0 <= i < |tabs| && 0 <= j < |tabs| && tabs[i].active && tabs[j].active ==> i == j
  {
    var tabs := MapStateToTabsProps(state).tabs;
    forall i, j | 0 <= i < |tabs| && 0 <= j < |tabs| && tabs[i].active && tabs[j].active
      ensures i == j
    {
      assert ThreadIds(state.threads)[i] == ThreadIds(state.threads)[j];
    }
  }

  /** When the active id names a thread, some tab is active; with unique
      thread ids it is the tab of that thread alone. */
  lemma ActiveThreadHasActiveTab(state: State, k: int)
    requires 0 <= k < |state.threads|
    requires state.threads[k].id == state.activeThreadId
    ensures MapStateToTabsProps(state).tabs[k].active
    ensures Distinct(ThreadIds(state.threads)) ==>
      forall i :: 0 <= i < |state.threads| && MapStateToTabsProps(state).tabs[i].active ==> i == k
  {
    if Distinct(ThreadIds(state.threads)) {
      AtMostOneActiveTab(state);
    }
  }

  /** Adding or deleting a message leaves the tab bar as it was. */
  lemma MessageActionsKeepTabs(s: State, action: Action, freshId: MessageId, now: int)
    requires IsMessageAction(action)
    requires Reduce(Some(s), action, freshId, now).Ok?
    ensures MapStateToTabsProps(Reduce(Some(s), action, freshId, now).value) == MapStateToTabsProps(s)
  {
    var s' := Reduce(Some(s), action, freshId, now).value;
    ReduceKeepsThreadIdentities(Some(s), action, freshId, now);
    var a, b := MapStateToTabsProps(s').tabs, MapStateToTabsProps(s).tabs;
    assert forall i :: 0 <= i < |a| ==> a[i] == b[i];
  }

  /** After opening a thread, a tab is active exactly when it carries the
      opened id; the titles and ids of the tabs do not change. */
  lemma OpenThreadMovesActiveTab(s: State, id: ThreadId, freshId: MessageId, now: int)
    ensures var tabs := MapStateToTabsProps(Reduce(Some(s), OpenThread(id), freshId, now).value).tabs;
      && |tabs| == |MapStateToTabsProps(s).tabs|
      && forall i :: 0 <= i < |tabs| ==>
           && tabs[i].title == MapStateToTabsProps(s).tabs[i].title
           && tabs[i].id == MapStateToTabsProps(s).tabs[i].id
           && (tabs[i].active <==> tabs[i].id == id)
  {
  }
}
