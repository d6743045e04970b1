# Terminal service registry and tab bookkeeping, modelled in Dafny

This project models two pieces of Windows Terminal and the console host, and
proves properties about them.

**The console host's interactivity `ServiceLocator`** (`Interactivity`,
`ServiceLocator.dfy`). It is a process-wide registry of single-owner service
slots: console control, input thread, console window, window metrics,
accessibility notifier, high-DPI API and system configuration provider. It
also holds the platform interactivity factory that fills those slots on
demand, the write-once pseudo-console window and the OneCore teardown hook.

- The static members become the fields of a class, and each operation is a
  method that reassigns them.
- Each "build on demand" operation is specified by a pure function
  (`LoadFactory`, `LazyLocate`, `PseudoLocate`).
- Every modelled operation is proved to satisfy `Grows`, taking the
  operations one at a time. Under `Grows`, an occupied slot is never cleared
  or replaced, the factory is built at most once, and an initialised pseudo
  window stays as it is. The one exception in the source is the debug-build
  console-window reset during rundown, just before the process exits; the
  model keeps it only as a step of the teardown sequence.
- Every call into the platform factory is a parameter: what the allocation
  produced, what a create call returned and stored, and what
  `CreatePseudoWindow` produced for an owner. So each contract holds for every
  behaviour of the factory.

**The tab management of the terminal's `TerminalPage`** (`TerminalApp`,
`TabManagement.dfy`, built on the list operations in `Sequences.dfy`). It
covers:

- the in-order tab list and the most-recently-used (MRU) list;
- the selected tab and the index each tab is told;
- the replay buffer of closed panes and tabs;
- the drag-rearrange state;
- the index arithmetic used to pick the next tab, the tab after a removal, the
  insertion point and the clamped move target.

`TerminalPage` is a class whose methods update these fields. Its invariant
`Valid` has four parts:

- both lists hold the same distinct tabs;
- the selection is one of them;
- every tab knows its current position and the tab count;
- drag positions lie inside the row, and the replay buffer is bounded.

Tabs are distinct numbers. `IVector`'s `IndexOf`, `RemoveAt` and `InsertAt`
are the functions of the same names in `Sequences`.

`Wrappers.dfy` holds the `Option` type.

## Model

| member | source | states |
|---|---|---|
| Interactivity.LoadFactory | src/interactivity/base/ServiceLocator.cpp:363-373 | The load succeeds exactly when a factory exists afterwards. An existing factory is kept as it is. Otherwise the result of the allocation is stored, and a null allocation fails. |
| Interactivity.LoadFactoryIdempotent | src/interactivity/base/ServiceLocator.cpp:363-373 | Once a load has produced a factory, a second load keeps that factory and succeeds, whatever the allocator would return. |
| Interactivity.LazyLocate | src/interactivity/base/ServiceLocator.cpp:205-225 | An occupied slot is returned unchanged and the factory is not consulted. An empty slot takes the factory load's result; it is filled by the create call when the factory is available, and otherwise stays empty with the load's failure status. |
| Interactivity.LazyLocateStable | src/interactivity/base/ServiceLocator.cpp:205-225 | Once a lazy locator has produced a service, every later call returns that same service. |
| Interactivity.LazyLocateRetries | src/interactivity/base/ServiceLocator.cpp:205-225 | A locator that came back empty has not cached the failure. The next call with a factory available stores what the factory then makes. |
| Interactivity.PseudoLocate | src/interactivity/base/ServiceLocator.cpp:336-357 | After any call the pseudo window counts as initialised, even when creation failed. An initialised window is returned without consulting the owner, allocator or factory. The first call stores what the factory created for the given owner. |
| Interactivity.PseudoLocateOwnerIgnoredLater | src/interactivity/base/ServiceLocator.cpp:336-357 | A second call with a different owner returns exactly what the first call stored. |
| Interactivity.RundownSteps | src/interactivity/base/ServiceLocator.cpp:42-104 | Process exit with the given code is the last step and happens once. No step repeats. The renderer teardown comes first when there is a renderer. The teardown hook runs exactly when one is registered. The lock, renderer deletion and window reset happen exactly in debug builds. |
| Interactivity.GrowsAlongRun | src/interactivity/base/ServiceLocator.cpp:17-30 | Any run of registry states in which each step Grows also Grows as a whole: no slot, once filled, is ever cleared or replaced. |
| Interactivity.ServiceLocator.constructor | src/interactivity/base/ServiceLocator.cpp:17-30 | At process start every slot is empty, there is no factory or hook, and the pseudo window is not initialised. |
| Interactivity.ServiceLocator.SetOneCoreTeardownFunction | src/interactivity/base/ServiceLocator.cpp:36-40 | A second registration is a fail-fast and leaves the first hook in place. A first registration stores the hook. |
| Interactivity.ServiceLocator.RundownAndExit | src/interactivity/base/ServiceLocator.cpp:42-104 | The teardown ends in process exit with the given code, and it calls the hook exactly when one is registered. |
| Interactivity.ServiceLocator.LoadInteractivityFactory | src/interactivity/base/ServiceLocator.cpp:363-373 | The new factory and the status are those of `LoadFactory`, and the registry only Grows. |
| Interactivity.ServiceLocator.CreateConsoleInputThread | src/interactivity/base/ServiceLocator.cpp:108-134 | An occupied slot is refused with STATUS_INVALID_HANDLE and nothing changes. Otherwise the factory is loaded, the slot takes what the create call stored, and the status is the load's failure or the create call's status. The caller's out-variable receives the stored thread only on success; on failure it keeps what it held before. |
| Interactivity.ServiceLocator.CreateAccessibilityNotifier | src/interactivity/base/ServiceLocator.cpp:136-152 | An occupied slot gives E_UNEXPECTED with nothing changed. A failed factory load is passed on as its HRESULT. Otherwise the slot takes what the factory stored, and the result is S_OK or the create call's failure as an HRESULT. |
| Interactivity.ServiceLocator.SetConsoleControlInstance | src/interactivity/base/ServiceLocator.cpp:158-174 | Occupied slot: STATUS_INVALID_HANDLE, slot kept. Otherwise a null control gives STATUS_INVALID_PARAMETER, and a non-null one is stored with STATUS_SUCCESS. The occupied check takes priority. |
| Interactivity.ServiceLocator.SetConsoleWindowInstance | src/interactivity/base/ServiceLocator.cpp:176-194 | The same three outcomes, for the console window. |
| Interactivity.ServiceLocator.LocateConsoleWindow | src/interactivity/base/ServiceLocator.cpp:200-203 | Returns the slot's current content and changes nothing. |
| Interactivity.ServiceLocator.LocateConsoleInputThread | src/interactivity/base/ServiceLocator.cpp:227-230 | Returns the slot's current content and changes nothing. |
| Interactivity.ServiceLocator.LocateAccessibilityNotifier | src/interactivity/base/ServiceLocator.cpp:276-279 | Returns the slot's current content and changes nothing. |
| Interactivity.ServiceLocator.LocateConsoleControl | src/interactivity/base/ServiceLocator.cpp:205-225 | The factory and slot afterwards are those of `LazyLocate`, the slot's content is returned, and the registry only Grows. |
| Interactivity.ServiceLocator.LocateHighDpiApi | src/interactivity/base/ServiceLocator.cpp:232-252 | The factory and slot afterwards are those of `LazyLocate`, the slot's content is returned, and the registry only Grows. |
| Interactivity.ServiceLocator.LocateWindowMetrics | src/interactivity/base/ServiceLocator.cpp:254-274 | The factory and slot afterwards are those of `LazyLocate`, the slot's content is returned, and the registry only Grows. |
| Interactivity.ServiceLocator.LocateSystemConfigurationProvider | src/interactivity/base/ServiceLocator.cpp:281-301 | The factory and slot afterwards are those of `LazyLocate`, the slot's content is returned, and the registry only Grows. |
| Interactivity.ServiceLocator.LocatePseudoWindow | src/interactivity/base/ServiceLocator.cpp:336-357 | The factory, the initialised flag and the window afterwards are those of `PseudoLocate`. The stored window is returned. The registry only Grows, and the window is never stored without being initialised. |
| Interactivity.ServiceLocator.SetPseudoWindowCallback | src/interactivity/base/ServiceLocator.cpp:317-327 | The pseudo window is initialised first with the default (null) owner, as `PseudoLocate` describes. The callback then goes to the factory exactly when there is one, and the result names that factory and the callback it received. |
| Sequences.IndexOf | src/cascadia/TerminalApp/TabManagement.cpp:1012-1013 | Absent exactly when the element is not in the list. Otherwise the result is a valid position holding the element. |
| Sequences.IndexOfFirst | src/cascadia/TerminalApp/TabManagement.cpp:1012-1013 | The reported position is the first occurrence. |
| Sequences.IndexOfUnique | src/cascadia/TerminalApp/TabManagement.cpp:1012-1013 | In a list without duplicates, IndexOf gives back the position of any element. |
| Sequences.RemoveAt | src/cascadia/TerminalApp/TabManagement.cpp:532-535 | The list loses one element: its length drops by one. With RemoveAtSlices it is the list with position `i` cut out, and with RemoveAtMultiset exactly that element is gone. |
| Sequences.RemoveAtMultiset | src/cascadia/TerminalApp/TabManagement.cpp:529-535 | RemoveAt takes out exactly one occurrence of the removed element. |
| Sequences.InsertAt | src/cascadia/TerminalApp/TabManagement.cpp:139-140 | The list gains one element, which sits at the given position. With InsertAtSlices the others keep their order around it, and with InsertAtMultiset exactly one occurrence is added. |
| Sequences.InsertAtMultiset | src/cascadia/TerminalApp/TabManagement.cpp:139-140 | InsertAt adds exactly one occurrence of the inserted element, at the given position. |
| Sequences.InsertThenRemove | src/cascadia/TerminalApp/TabManagement.cpp:1016-1017 | Removing at the position just inserted at gives back the original list. |
| Sequences.Move | src/cascadia/TerminalApp/TabManagement.cpp:1036-1037 | Taking a tab out at `from` and inserting it at `to` keeps the length and puts that tab at `to`. |
| Sequences.MovePermutes | src/cascadia/TerminalApp/TabManagement.cpp:1036-1037 | Moving a tab (remove it, insert it elsewhere) only reorders the list. |
| Sequences.MoveKeepsOrder | src/cascadia/TerminalApp/TabManagement.cpp:1036-1037 | Moving a tab leaves the other tabs in their relative order. |
| TerminalApp.TabRowVisible | src/cascadia/TerminalApp/TabManagement.cpp:325-328 | The row is shown only outside fullscreen and focus mode, and then only with title-bar tabs, always-show, or two or more tabs. Outside those modes, each of the three (title-bar tabs, always-show, two or more tabs) shows it. |
| TerminalApp.TabRowVisibility | src/cascadia/TerminalApp/TabManagement.cpp:320-341 | The tab row is never shown in fullscreen or focus mode. Without title-bar tabs or always-show, it is shown exactly when there are two or more tabs. Adding a tab never hides it. |
| TerminalApp.NextTabIndex | src/cascadia/TerminalApp/TabManagement.cpp:608-632 | The unsigned 32-bit wraparound index, written out with its modulo 2^32, is always a valid tab index. |
| TerminalApp.NextTabIndexIsNeighbour | src/cascadia/TerminalApp/TabManagement.cpp:608-632 | For up to 2^31 tabs the wraparound picks the neighbour. Right of the last tab is the first, left of the first is the last, and otherwise it moves one step. |
| TerminalApp.ClampSelectIndex | src/cascadia/TerminalApp/TabManagement.cpp:644-651 | The requested index is kept when it is in range, and it becomes the last index otherwise. |
| TerminalApp.ClampMoveTarget | src/cascadia/TerminalApp/TabManagement.cpp:1029-1031 | The signed target is kept when in range, becomes 0 when negative and becomes the last index when too large. |
| TerminalApp.NeighbourAfterRemoval | src/cascadia/TerminalApp/TabManagement.cpp:574-582 | After closing the tab at `tabIndex`, the selection moves to the tab to its left, or to the first tab when the first one was closed. The index is always valid. |
| TerminalApp.NeighbourWorkedExample | src/cascadia/TerminalApp/TabManagement.cpp:577-581 | The source's example: with tabs [A, B, C, D], closing A, B, C or D focuses B, A, B or C respectively. |
| TerminalApp.InsertPosition | src/cascadia/TerminalApp/TabManagement.cpp:129-137 | A new tab goes at the end, or right after the focused tab when new tabs open after the current one and a tab is focused. |
| TerminalApp.MruBump | src/cascadia/TerminalApp/TabManagement.cpp:1009-1020 | An unknown tab leaves the MRU list alone. A known tab ends up at the front, and the list keeps its length. |
| TerminalApp.MruBumpKeepsTabs | src/cascadia/TerminalApp/TabManagement.cpp:1009-1020 | Bumping keeps the same tabs, each once, and bumping the tab already in front changes nothing. |
| TerminalApp.MruBumpKeepsOrder | src/cascadia/TerminalApp/TabManagement.cpp:1009-1020 | Bumping leaves the other tabs in their relative order. |
| TerminalApp.RecordClosed | src/cascadia/TerminalApp/TabManagement.cpp:466-479 | The new entry is appended last. A buffer of at most 150 entries is kept whole. A longer one is cut to its newest 100 entries, in order, first. The result never exceeds 151 entries. |
| TerminalApp.RecordClosedBounded | src/cascadia/TerminalApp/TabManagement.cpp:466-479 | Over any run of closings the buffer stays at most 151 entries, and the last recorded entry is the newest. |
| TerminalApp.InsertKeepsAgreement | src/cascadia/TerminalApp/TabManagement.cpp:139-140 | Inserting a fresh tab anywhere in the row and appending it to the MRU list keeps both lists holding the same distinct tabs. |
| TerminalApp.MoveKeepsAgreement | src/cascadia/TerminalApp/TabManagement.cpp:1036-1037 | Moving a tab within the row keeps both lists holding the same distinct tabs. |
| TerminalApp.BumpKeepsAgreement | src/cascadia/TerminalApp/TabManagement.cpp:1009-1020 | Bumping a tab in the MRU list keeps both lists holding the same distinct tabs. |
| TerminalApp.RemoveKeepsAgreement | src/cascadia/TerminalApp/TabManagement.cpp:529-535 | A tab of the row is in the MRU list too, and removing it from both keeps them holding the same distinct tabs. |
| TerminalApp.SelectionAfterRemoval | src/cascadia/TerminalApp/TabManagement.cpp:555-596 | In MRU mode the new selection is the MRU front. Otherwise it is the left neighbour of the closed position, or the first tab. |
| TerminalApp.TerminalPage.FocusedTabIndex | src/cascadia/TerminalApp/TabManagement.cpp:690-700 | There is a focused index exactly when a tab is selected, and it is the position of the selected tab. |
| TerminalApp.TerminalPage.HasMultipleTabs | src/cascadia/TerminalApp/TabManagement.cpp:1101-1104 | True exactly when there are at least two tabs, which is when the row shows under default settings. |
| TerminalApp.TerminalPage.UpdateTabIndices | src/cascadia/TerminalApp/TabManagement.cpp:992-1001 | Afterwards every tab of the row knows its own position and the current count. |
| TerminalApp.TerminalPage.UpdateMRUTab | src/cascadia/TerminalApp/TabManagement.cpp:1009-1020 | The MRU list becomes `MruBump` of the old one, and the two lists stay in agreement. |
| TerminalApp.TerminalPage.UpdatedSelectedTab | src/cascadia/TerminalApp/TabManagement.cpp:909-956 | The MRU list is bumped unless the tab switcher is open, and the lists stay in agreement. |
| TerminalApp.TerminalPage.InitializeTab | src/cascadia/TerminalApp/TabManagement.cpp:125-282 | The new tab is inserted at `InsertPosition`, appended to the MRU list and selected, and the invariant is kept. |
| TerminalApp.TerminalPage.InsertNewTab | src/cascadia/TerminalApp/TabManagement.cpp:139-141 | The tab is inserted at the given position, appended to the MRU list and selected. Every tab is renumbered and the invariant is kept. |
| TerminalApp.TerminalPage.DropTab | src/cascadia/TerminalApp/TabManagement.cpp:529-537 | The tab leaves both lists; it was in the MRU list too. A selection on it is dropped, and the indices are renumbered. |
| TerminalApp.TerminalPage.SelectAfterRemoval | src/cascadia/TerminalApp/TabManagement.cpp:555-596 | The new selection is `SelectionAfterRemoval`, bumped in the MRU list unless the tab switcher is open. |
| TerminalApp.TerminalPage.RemoveFoundTab | src/cascadia/TerminalApp/TabManagement.cpp:523-596 | The tab is removed from both lists, and the last tab closed is reported exactly when the row is empty. A selection on the closed tab moves as `SelectionAfterRemoval` says; any other selection is untouched. |
| TerminalApp.TerminalPage.RemoveTab | src/cascadia/TerminalApp/TabManagement.cpp:509-604 | An unknown tab changes nothing. A known tab is removed as `RemoveFoundTab` states and any drag is ended. The invariant is kept, including "no removal under way" afterwards. |
| TerminalApp.TerminalPage.SelectTab | src/cascadia/TerminalApp/TabManagement.cpp:644-667 | Always succeeds and selects the tab at the clamped index. During startup the MRU list is also bumped, unless the switcher is open. |
| TerminalApp.TerminalPage.SelectNextTab | src/cascadia/TerminalApp/TabManagement.cpp:608-632 | In Disabled mode it selects the tab at the wraparound index from the focused index (0 when none), and bumps that tab in the MRU list exactly as `SelectTab` does (during startup, unless the switcher is open). The other modes change none of the tab state. |
| TerminalApp.TerminalPage.MoveTabInRow | src/cascadia/TerminalApp/TabManagement.cpp:1036-1038 | The row becomes `Move` of the old row, the indices are renumbered and the invariant is kept. |
| TerminalApp.TerminalPage.TryMoveTab | src/cascadia/TerminalApp/TabManagement.cpp:1029-1044 | When the clamped target differs, the tab moves there and is selected. Otherwise nothing changes. |
| TerminalApp.TerminalPage.TabDragStarted | src/cascadia/TerminalApp/TabManagement.cpp:1046-1052 | A drag starts with neither end recorded. |
| TerminalApp.TerminalPage.OnTabItemsChanged | src/cascadia/TerminalApp/TabManagement.cpp:868-885 | During a drag, a removal records the source index and an insertion the target index. Outside a drag nothing is recorded. |
| TerminalApp.TerminalPage.TabDragCompleted | src/cascadia/TerminalApp/TabManagement.cpp:1054-1072 | When both ends are recorded and differ, the tab moves from one to the other. In every case the drag state ends cleared. |
| TerminalApp.TerminalPage.AddPreviouslyClosedPaneOrTab | src/cascadia/TerminalApp/TabManagement.cpp:466-479 | The replay buffer becomes `RecordClosed` of the old buffer and stays within its bound. |
| TerminalApp.TerminalPage.CloseTabAtIndex | src/cascadia/TerminalApp/TabManagement.cpp:835-845 | A close is requested exactly when the index is inside the row, and it is for the tab at that index. |

## Left out

**ServiceLocator**

- RundownAndExit: the exit lock, the thread race for the lock, the renderer
  and window objects themselves, and the real process exit are not modelled.
  The model gives the sequence of steps one winning thread performs.
- SetOneCoreTeardownFunction: the fail-fast that kills the process is returned
  as a flag instead.
- The `NT_TESTNULL`/wil macros are modelled by their status results. The
  factory's internals (`InteractivityFactory.cpp`) are not part of this model;
  its replies are parameters.
- Interactivity.LoadFactory: a failed allocation is modelled as a null result
  with STATUS_NO_MEMORY. In the source, `std::make_unique` throws instead, and
  the exception escapes `LoadInteractivityFactory` and the locators that call
  it. The registry's state comes out the same: the factory stays null and the
  next call tries again. The exception itself is not modelled.
- Registry operations are modelled as sequential calls. The source checks a
  slot and then fills it without a lock (`LoadInteractivityFactory` and the
  lazy locators), so two threads racing on an empty slot could each allocate a
  factory or a service. That race is not modelled, and "built at most once"
  holds only for calls made one at a time.
- RundownAndExit: the debug-build reset of the console window clears an
  occupied slot. It happens just before the process exits, so it is recorded
  as the `ResetConsoleWindow` step and not as a registry change; `Grows` is
  not claimed across it.
- Interactivity.ServiceLocator.CreateConsoleInputThread: the out-parameter is
  annotated as nulled on failure, but the code writes it only on success. The
  model follows the code: on failure the caller's variable keeps its prior
  value, passed in as `prior`.
- LocateGlobals returns a reference to a global object. It has no state or
  logic of its own, so it is not modelled.

**Tab management**

- XAML, focus, coroutines and events are not modelled:
  - the TabView item list is taken to be identical to the tab list, and its
    selected item to be the `selected` field;
  - setting the focused tab after startup (`_SetFocusedTab`) is an asynchronous
    dispatch, which is not modelled;
  - the settings and the command palette's visibility are parameters.
- `_OpenNewTab`, `_CreateNewTabFromPane`, `_DuplicateTab`, `_SplitTab`,
  `_ExportTab`, `_HandleCloseTabRequested`, `_CloseFocusedPane`, `_RemoveTabs`,
  `_RemoveAllTabs`, the icon, width, background and context-menu helpers, and
  `_OnTabClick` work on terminal controls, files, dialogs or asynchronous
  continuations. They are not modelled.
- The persisted-layout clearing and the last-tab-closed event in `_RemoveTab`
  are reported only as the `lastTabClosed` result.
- The selection-changed handler (`_OnTabSelectionChanged`) is an event and is
  not modelled. Setting the TabView's selected item raises it, and outside a
  drag or a removal it calls `_UpdatedSelectedTab`, which bumps the MRU list.
  This happens when a new tab is selected in `_InitializeTab`, after startup
  in `_SelectTab`, and in `_TryMoveTab`. So the MRU contracts of
  TerminalApp.TerminalPage.InitializeTab, TerminalApp.TerminalPage.SelectTab
  (after startup) and TerminalApp.TerminalPage.TryMoveTab describe the state
  before that event runs. The `_removing` flag, which suppresses the handler
  during a removal, is modelled as state only.
- TerminalApp.TerminalPage.SelectNextTab: the MostRecentlyUsed and InOrder
  modes open the tab switcher. That is UI, so the model only states that they
  change no tab state.
- TerminalApp.NextTabIndexIsNeighbour: the neighbour property is stated for up
  to 2^31 tabs. `NextTabIndex` itself keeps the exact 32-bit arithmetic for any
  count.
- TerminalApp.TerminalPage.SelectTab: requires a non-empty row. With no tabs the
  source's `_tabs.Size() - 1` wraps and `GetAt` fails.
- TerminalApp.TerminalPage.TryMoveTab: requires `currentTabIndex` to be inside
  the row. The source's `GetAt` fails otherwise.
- TerminalApp.TerminalPage.OnTabItemsChanged: requires a drag's event index to
  lie in the row. The TabView guarantees this, but the model does not.
- The page's field declarations and their initial values are in TerminalPage.h,
  which is not part of this model. The constructor starts from an empty page.
- TerminalApp.TerminalPage.DropTab: the index entries of removed tabs are left
  in `tabViewIndex` and not stated. Only the live tabs' entries are specified.
