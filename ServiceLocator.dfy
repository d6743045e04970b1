/** The console host's interactivity service registry: one process-wide table
    of single-owner service slots, the platform factory that fills them on
    demand, the write-once pseudo-console window and the OneCore teardown hook.

    Services, windows, hooks and the factory are identified by opaque numbers;
    `None` stands for a null pointer or an empty unique_ptr. Every call the
    registry makes into the platform factory is an argument of the operation
    (an oracle chosen by the caller of the model), so each contract holds for
    whatever the factory does. */
module Interactivity {
  import opened Wrappers
  import opened Sequences

  newtype uint32 = x: int | 0 <= x < 0x1_0000_0000

  /** NTSTATUS values, as unsigned 32-bit codes. */
  type NtStatus = uint32

  const STATUS_SUCCESS: NtStatus := 0
  const STATUS_INVALID_HANDLE: NtStatus := 0xC000_0008
  const STATUS_INVALID_PARAMETER: NtStatus := 0xC000_000D
  /** What the null test on a freshly allocated factory yields when the allocation gave null. */
  const STATUS_NO_MEMORY: NtStatus := 0xC000_0017

  /** NT_SUCCESS: the status is non-negative when read as a signed 32-bit value. */
  predicate NtSuccess(s: NtStatus) {
    s < 0x8000_0000
  }

  /** The HRESULTs CreateAccessibilityNotifier returns: S_OK, E_UNEXPECTED, or
      the HRESULT form of a failed NTSTATUS it passes on. */
  datatype HResult = S_OK | E_UNEXPECTED | FromNtStatus(status: NtStatus)

  type Handle = nat
  type FactoryId = nat
  type HookId = nat
  type CallbackId = nat

  /** What one "create service" call of the factory did: the status it
      returned and what it stored into the slot it was handed. */
  datatype FactoryReply = FactoryReply(status: NtStatus, made: Option<Handle>)

  /** What the factory's CreatePseudoWindow reported: its status and the window it produced. */
  datatype WindowReply = WindowReply(status: NtStatus, hwnd: Option<Handle>)

  /** The registry's fields as one value, to state how they may evolve. */
  datatype Registry = Registry(
    factory: Option<FactoryId>,
    consoleControl: Option<Handle>,
    consoleInputThread: Option<Handle>,
    consoleWindow: Option<Handle>,
    windowMetrics: Option<Handle>,
    accessibilityNotifier: Option<Handle>,
    highDpiApi: Option<Handle>,
    systemConfigurationProvider: Option<Handle>,
    oneCoreTeardown: Option<HookId>,
    pseudoWindowInitialized: bool,
    pseudoWindow: Option<Handle>)

  /** A slot that holds something keeps it. */
  predicate Kept<T(==)>(before: Option<T>, after: Option<T>) {
    before.Some? ==> after == before
  }

  /** How the registry may change during normal operation: an occupied slot
      is never cleared or replaced, the factory is built at most once, and the
      pseudo window, once initialised, stays initialised with the same handle. */
  predicate Grows(before: Registry, after: Registry) {
    && Kept(before.factory, after.factory)
    && Kept(before.consoleControl, after.consoleControl)
    && Kept(before.consoleInputThread, after.consoleInputThread)
    && Kept(before.consoleWindow, after.consoleWindow)
    && Kept(before.windowMetrics, after.windowMetrics)
    && Kept(before.accessibilityNotifier, after.accessibilityNotifier)
    && Kept(before.highDpiApi, after.highDpiApi)
    && Kept(before.systemConfigurationProvider, after.systemConfigurationProvider)
    && Kept(before.oneCoreTeardown, after.oneCoreTeardown)
    && (before.pseudoWindowInitialized ==>
          after.pseudoWindowInitialized && after.pseudoWindow == before.pseudoWindow)
  }

  /** Any run of registry operations, each of which Grows, Grows as a whole. */
  lemma {:induction false} GrowsAlongRun(run: seq<Registry>)
    requires |run| > 0
    requires forall k :: 0 <= k < |run| - 1 ==> Grows(run[k], run[k + 1])
    ensures Grows(run[0], run[|run| - 1])
  {
    if |run| > 1 {
      GrowsAlongRun(run[..|run| - 1]);
    }
  }

  /** LoadInteractivityFactory on values: allocate only when there is no factory. */
  datatype FactoryLoad = FactoryLoad(factory: Option<FactoryId>, status: NtStatus)

  function LoadFactory(factory: Option<FactoryId>, alloc: Option<FactoryId>): (r: FactoryLoad)
    ensures NtSuccess(r.status) <==> r.factory.Some?
    ensures factory.Some? ==> r.factory == factory
    ensures factory.None? ==> r.factory == alloc
  {
    if factory.None? then
      FactoryLoad(alloc, if alloc.None? then STATUS_NO_MEMORY else STATUS_SUCCESS)
    else
      FactoryLoad(factory, STATUS_SUCCESS)
  }

  /** A second load never builds a second factory and always succeeds. */
  lemma LoadFactoryIdempotent(factory: Option<FactoryId>, alloc1: Option<FactoryId>, alloc2: Option<FactoryId>)
    requires LoadFactory(factory, alloc1).factory.Some?
    ensures LoadFactory(LoadFactory(factory, alloc1).factory, alloc2) == LoadFactory(factory, alloc1).(status := STATUS_SUCCESS)
  {
  }

  /** The shared body of the four lazy locators, on values: the new factory
      and slot, and the status that the locator only logs. */
  datatype LazyOutcome = LazyOutcome(factory: Option<FactoryId>, slot: Option<Handle>, status: NtStatus)

  function LazyLocate(factory: Option<FactoryId>, slot: Option<Handle>,
                      alloc: Option<FactoryId>, reply: FactoryReply): (o: LazyOutcome)
    // an occupied slot is returned as it is, and the factory is not touched
    ensures slot.Some? ==> o == LazyOutcome(factory, slot, STATUS_SUCCESS)
    // an empty slot is filled by the factory's create call, when the factory is available
    ensures slot.None? ==> o.factory == LoadFactory(factory, alloc).factory
    ensures slot.None? && o.factory.Some? ==> o.slot == reply.made && o.status == reply.status
    ensures slot.None? && o.factory.None? ==> o.slot.None? && o.status == STATUS_NO_MEMORY
  {
    if slot.Some? then LazyOutcome(factory, slot, STATUS_SUCCESS)
    else
      var load := LoadFactory(factory, alloc);
      if NtSuccess(load.status) then LazyOutcome(load.factory, reply.made, reply.status)
      else LazyOutcome(load.factory, slot, load.status)
  }

  /** Once a lazy locator has produced a service, every later call returns
      that same service, whatever the factory would do. */
  lemma LazyLocateStable(factory: Option<FactoryId>, slot: Option<Handle>,
                         alloc1: Option<FactoryId>, reply1: FactoryReply,
                         alloc2: Option<FactoryId>, reply2: FactoryReply)
    requires LazyLocate(factory, slot, alloc1, reply1).slot.Some?
    ensures var first := LazyLocate(factory, slot, alloc1, reply1);
            LazyLocate(first.factory, first.slot, alloc2, reply2).slot == first.slot
  {
  }

  /** A lazy locator that came back empty has not cached the failure: the
      next call asks the factory again, and keeps what it then makes. */
  lemma LazyLocateRetries(factory: Option<FactoryId>, slot: Option<Handle>,
                          alloc1: Option<FactoryId>, reply1: FactoryReply,
                          alloc2: Option<FactoryId>, reply2: FactoryReply)
    requires LazyLocate(factory, slot, alloc1, reply1).slot.None?
    requires LoadFactory(LazyLocate(factory, slot, alloc1, reply1).factory, alloc2).factory.Some?
    ensures var first := LazyLocate(factory, slot, alloc1, reply1);
            LazyLocate(first.factory, first.slot, alloc2, reply2).slot == reply2.made
  {
  }

  /** LocatePseudoWindow on values. */
  datatype PseudoOutcome = PseudoOutcome(factory: Option<FactoryId>, initialized: bool, window: Option<Handle>)

  function PseudoLocate(factory: Option<FactoryId>, initialized: bool, window: Option<Handle>,
                        owner: Option<Handle>, alloc: Option<FactoryId>,
                        createPseudoWindow: Option<Handle> -> WindowReply): (o: PseudoOutcome)
    // after any call the window counts as initialised, even when creation failed
    ensures o.initialized
    // an initialised window is returned as it is; owner, allocator and factory are not consulted
    ensures initialized ==> o == PseudoOutcome(factory, initialized, window)
    // the first call stores whatever the factory produced for the given owner
    ensures !initialized ==> o.factory == LoadFactory(factory, alloc).factory
    ensures !initialized && o.factory.Some? ==> o.window == createPseudoWindow(owner).hwnd
    ensures !initialized && o.factory.None? ==> o.window == window
  {
    if initialized then PseudoOutcome(factory, initialized, window)
    else
      var load := LoadFactory(factory, alloc);
      if NtSuccess(load.status) then PseudoOutcome(load.factory, true, createPseudoWindow(owner).hwnd)
      else PseudoOutcome(load.factory, true, window)
  }

  /** Two calls with different owners: the second returns what the first
      stored and ignores its own owner. */
  lemma PseudoLocateOwnerIgnoredLater(factory: Option<FactoryId>, initialized: bool, window: Option<Handle>,
                                      owner1: Option<Handle>, alloc1: Option<FactoryId>,
                                      create1: Option<Handle> -> WindowReply,
                                      owner2: Option<Handle>, alloc2: Option<FactoryId>,
                                      create2: Option<Handle> -> WindowReply)
    ensures var first := PseudoLocate(factory, initialized, window, owner1, alloc1, create1);
            PseudoLocate(first.factory, first.initialized, first.window, owner2, alloc2, create2) == first
  {
  }

  /** The observable steps of RundownAndExit. */
  datatype RundownStep =
    | TriggerRendererTeardown   // the renderer's last chance to paint
    | LockConsole               // debug builds only; never released
    | DeleteRenderer            // debug builds only
    | CallTeardownHook          // the registered OneCore teardown function
    | ResetConsoleWindow        // debug builds only
    | ExitProcess(code: uint32)

  /** The step sequence of RundownAndExit for one winning thread: every step
      happens at most once; the renderer teardown (if there is a renderer)
      comes first; the hook runs exactly when one is registered; the debug-only
      steps happen exactly in debug builds; process exit is the last step. */
  function RundownSteps(rendererPresent: bool, hook: Option<HookId>, debugBuild: bool, hr: uint32): (steps: seq<RundownStep>)
    ensures |steps| > 0 && steps[|steps| - 1] == ExitProcess(hr)
    ensures forall k :: 0 <= k < |steps| - 1 ==> !steps[k].ExitProcess?
    ensures Distinct(steps)
    ensures rendererPresent ==> steps[0] == TriggerRendererTeardown
    ensures TriggerRendererTeardown in steps <==> rendererPresent
    ensures CallTeardownHook in steps <==> hook.Some?
    ensures LockConsole in steps <==> debugBuild
    ensures DeleteRenderer in steps <==> debugBuild
    ensures ResetConsoleWindow in steps <==> debugBuild
  {
    var steps :=
      (if rendererPresent then [TriggerRendererTeardown] else [])
      + (if debugBuild then [LockConsole, DeleteRenderer] else [])
      + (if hook.Some? then [CallTeardownHook] else [])
      + (if debugBuild then [ResetConsoleWindow] else [])
      + [ExitProcess(hr)];
    assert NoDups(steps);
    DistinctIsNoDups(steps);
    steps
  }

  /** The registry's static members. */
  class ServiceLocator {
    var interactivityFactory: Option<FactoryId>
    var consoleControl: Option<Handle>
    var consoleInputThread: Option<Handle>
    var consoleWindow: Option<Handle>
    var windowMetrics: Option<Handle>
    var accessibilityNotifier: Option<Handle>
    var highDpiApi: Option<Handle>
    var systemConfigurationProvider: Option<Handle>
    var oneCoreTeardownFunction: Option<HookId>
    var pseudoWindowInitialized: bool
    var pseudoWindow: Option<Handle>

    ghost function Snapshot(): Registry
      reads this
    {
      Registry(interactivityFactory, consoleControl, consoleInputThread, consoleWindow,
               windowMetrics, accessibilityNotifier, highDpiApi, systemConfigurationProvider,
               oneCoreTeardownFunction, pseudoWindowInitialized, pseudoWindow)
    }

    /** The pseudo window is only ever stored by its initialisation. */
    ghost predicate Valid()
      reads this
    {
      !pseudoWindowInitialized ==> pseudoWindow.None?
    }

    /** Process start: every slot empty, no factory, no hook, no pseudo window. */
    constructor ()
      ensures Valid()
      ensures Snapshot() == Registry(None, None, None, None, None, None, None, None, None, false, None)
    {
      interactivityFactory := None;
      consoleControl := None;
      consoleInputThread := None;
      consoleWindow := None;
      windowMetrics := None;
      accessibilityNotifier := None;
      highDpiApi := None;
      systemConfigurationProvider := None;
      oneCoreTeardownFunction := None;
      pseudoWindowInitialized := false;
      pseudoWindow := None;
    }

    /** Registers the OneCore teardown hook. A second registration is a fail-fast
        (the process dies): `failFast` reports it, and the hook is not overwritten. */
    method SetOneCoreTeardownFunction(pfn: Option<HookId>) returns (failFast: bool)
      modifies this`oneCoreTeardownFunction
      ensures failFast <==> old(oneCoreTeardownFunction).Some?
      ensures oneCoreTeardownFunction == if failFast then old(oneCoreTeardownFunction) else pfn
      ensures Grows(old(Snapshot()), Snapshot())
    {
      failFast := oneCoreTeardownFunction.Some?;
      if !failFast {
        oneCoreTeardownFunction := pfn;
      }
    }

    /** The teardown sequence RundownAndExit would run now. */
    function RundownAndExit(rendererPresent: bool, debugBuild: bool, hr: uint32): (steps: seq<RundownStep>)
      reads this
      ensures |steps| > 0 && steps[|steps| - 1] == ExitProcess(hr)
      ensures CallTeardownHook in steps <==> oneCoreTeardownFunction.Some?
    {
      RundownSteps(rendererPresent, oneCoreTeardownFunction, debugBuild, hr)
    }

    /** Builds the factory when there is none; `alloc` is what the allocation produced. */
    method LoadInteractivityFactory(alloc: Option<FactoryId>) returns (status: NtStatus)
      modifies this`interactivityFactory
      ensures LoadFactory(old(interactivityFactory), alloc) == FactoryLoad(interactivityFactory, status)
      ensures Grows(old(Snapshot()), Snapshot())
    {
      status := STATUS_SUCCESS;
      if interactivityFactory.None? {
        interactivityFactory := alloc;
        status := if interactivityFactory.None? then STATUS_NO_MEMORY else STATUS_SUCCESS;
      }
    }

    /** Creates the input thread through the factory; refuses an occupied slot.
        `prior` is what the caller's out-variable held before the call: on
        success it receives the stored instance, otherwise it is not written
        and keeps `prior`. */
    method CreateConsoleInputThread(alloc: Option<FactoryId>, reply: FactoryReply, prior: Option<Handle>)
      returns (status: NtStatus, thread: Option<Handle>)
      modifies this`interactivityFactory, this`consoleInputThread
      ensures old(consoleInputThread).Some? ==>
                status == STATUS_INVALID_HANDLE && thread == prior
                && consoleInputThread == old(consoleInputThread)
                && interactivityFactory == old(interactivityFactory)
      ensures old(consoleInputThread).None? ==>
                var load := LoadFactory(old(interactivityFactory), alloc);
                interactivityFactory == load.factory
                && consoleInputThread == (if NtSuccess(load.status) then reply.made else None)
                && status == (if NtSuccess(load.status) then reply.status else load.status)
      ensures NtSuccess(status) ==> thread == consoleInputThread
      ensures !NtSuccess(status) ==> thread == prior
      ensures Grows(old(Snapshot()), Snapshot())
    {
      status := STATUS_SUCCESS;
      thread := prior;
      if consoleInputThread.Some? {
        status := STATUS_INVALID_HANDLE;
      } else {
        if interactivityFactory.None? {
          status := LoadInteractivityFactory(alloc);
        }
        if NtSuccess(status) {
          status := reply.status;
          consoleInputThread := reply.made;
          if NtSuccess(status) {
            thread := consoleInputThread;
          }
        }
      }
    }

    /** Creates the accessibility notifier through the factory; refuses an occupied slot. */
    method CreateAccessibilityNotifier(alloc: Option<FactoryId>, reply: FactoryReply) returns (hr: HResult)
      modifies this`interactivityFactory, this`accessibilityNotifier
      ensures old(accessibilityNotifier).Some? ==>
                hr == E_UNEXPECTED
                && accessibilityNotifier == old(accessibilityNotifier)
                && interactivityFactory == old(interactivityFactory)
      ensures old(accessibilityNotifier).None? ==>
                var load := LoadFactory(old(interactivityFactory), alloc);
                interactivityFactory == load.factory
                && (!NtSuccess(load.status) ==> hr == FromNtStatus(load.status) && accessibilityNotifier.None?)
                && (NtSuccess(load.status) ==>
                      accessibilityNotifier == reply.made
                      && hr == if NtSuccess(reply.status) then S_OK else FromNtStatus(reply.status))
      ensures Grows(old(Snapshot()), Snapshot())
    {
      if accessibilityNotifier.Some? {
        return E_UNEXPECTED;
      }
      if interactivityFactory.None? {
        var status := LoadInteractivityFactory(alloc);
        if !NtSuccess(status) {
          return FromNtStatus(status);
        }
      }
      accessibilityNotifier := reply.made;
      if !NtSuccess(reply.status) {
        return FromNtStatus(reply.status);
      }
      return S_OK;
    }

    /** Hands in an externally built console control. The occupied check comes
        before the null check. */
    method SetConsoleControlInstance(control: Option<Handle>) returns (status: NtStatus)
      modifies this`consoleControl
      ensures old(consoleControl).Some? ==> status == STATUS_INVALID_HANDLE && consoleControl == old(consoleControl)
      ensures old(consoleControl).None? && control.None? ==> status == STATUS_INVALID_PARAMETER && consoleControl.None?
      ensures old(consoleControl).None? && control.Some? ==> status == STATUS_SUCCESS && consoleControl == control
      ensures Grows(old(Snapshot()), Snapshot())
    {
      if consoleControl.Some? {
        return STATUS_INVALID_HANDLE;
      } else if control.None? {
        return STATUS_INVALID_PARAMETER;
      } else {
        consoleControl := control;
      }
      return STATUS_SUCCESS;
    }

    /** Hands in an externally built console window, with the same three outcomes. */
    method SetConsoleWindowInstance(window: Option<Handle>) returns (status: NtStatus)
      modifies this`consoleWindow
      ensures old(consoleWindow).Some? ==> status == STATUS_INVALID_HANDLE && consoleWindow == old(consoleWindow)
      ensures old(consoleWindow).None? && window.None? ==> status == STATUS_INVALID_PARAMETER && consoleWindow.None?
      ensures old(consoleWindow).None? && window.Some? ==> status == STATUS_SUCCESS && consoleWindow == window
      ensures Grows(old(Snapshot()), Snapshot())
    {
      status := STATUS_SUCCESS;
      if consoleWindow.Some? {
        status := STATUS_INVALID_HANDLE;
      } else if window.None? {
        status := STATUS_INVALID_PARAMETER;
      } else {
        consoleWindow := window;
      }
    }

    /** Pure lookups: they never construct and change nothing. */
    method LocateConsoleWindow() returns (window: Option<Handle>)
      ensures window == consoleWindow
    {
      window := consoleWindow;
    }

    method LocateConsoleInputThread() returns (thread: Option<Handle>)
      ensures thread == consoleInputThread
    {
      thread := consoleInputThread;
    }

    method LocateAccessibilityNotifier() returns (notifier: Option<Handle>)
      ensures notifier == accessibilityNotifier
    {
      notifier := accessibilityNotifier;
    }

    /** Lazy locators: return the slot, building it through the factory first
        when it is empty. A failed build leaves the slot empty, so the next
        call tries again. */
    method LocateConsoleControl(alloc: Option<FactoryId>, reply: FactoryReply) returns (control: Option<Handle>)
      modifies this`interactivityFactory, this`consoleControl
      ensures var o := LazyLocate(old(interactivityFactory), old(consoleControl), alloc, reply);
              interactivityFactory == o.factory && consoleControl == o.slot
      ensures control == consoleControl
      ensures Grows(old(Snapshot()), Snapshot())
    {
      var status := STATUS_SUCCESS;
      if consoleControl.None? {
        if interactivityFactory.None? {
          status := LoadInteractivityFactory(alloc);
        }
        if NtSuccess(status) {
          status := reply.status;
          consoleControl := reply.made;
        }
      }
      control := consoleControl;
    }

    method LocateHighDpiApi(alloc: Option<FactoryId>, reply: FactoryReply) returns (api: Option<Handle>)
      modifies this`interactivityFactory, this`highDpiApi
      ensures var o := LazyLocate(old(interactivityFactory), old(highDpiApi), alloc, reply);
              interactivityFactory == o.factory && highDpiApi == o.slot
      ensures api == highDpiApi
      ensures Grows(old(Snapshot()), Snapshot())
    {
      var status := STATUS_SUCCESS;
      if highDpiApi.None? {
        if interactivityFactory.None? {
          status := LoadInteractivityFactory(alloc);
        }
        if NtSuccess(status) {
          status := reply.status;
          highDpiApi := reply.made;
        }
      }
      api := highDpiApi;
    }

    method LocateWindowMetrics(alloc: Option<FactoryId>, reply: FactoryReply) returns (metrics: Option<Handle>)
      modifies this`interactivityFactory, this`windowMetrics
      ensures var o := LazyLocate(old(interactivityFactory), old(windowMetrics), alloc, reply);
              interactivityFactory == o.factory && windowMetrics == o.slot
      ensures metrics == windowMetrics
      ensures Grows(old(Snapshot()), Snapshot())
    {
      var status := STATUS_SUCCESS;
      if windowMetrics.None? {
        if interactivityFactory.None? {
          status := LoadInteractivityFactory(alloc);
        }
        if NtSuccess(status) {
          status := reply.status;
          windowMetrics := reply.made;
        }
      }
      metrics := windowMetrics;
    }

    method LocateSystemConfigurationProvider(alloc: Option<FactoryId>, reply: FactoryReply) returns (provider: Option<Handle>)
      modifies this`interactivityFactory, this`systemConfigurationProvider
      ensures var o := LazyLocate(old(interactivityFactory), old(systemConfigurationProvider), alloc, reply);
              interactivityFactory == o.factory && systemConfigurationProvider == o.slot
      ensures provider == systemConfigurationProvider
      ensures Grows(old(Snapshot()), Snapshot())
    {
      var status := STATUS_SUCCESS;
      if systemConfigurationProvider.None? {
        if interactivityFactory.None? {
          status := LoadInteractivityFactory(alloc);
        }
        if NtSuccess(status) {
          status := reply.status;
          systemConfigurationProvider := reply.made;
        }
      }
      provider := systemConfigurationProvider;
    }

    /** Returns the pseudo-console window, creating it (owned by `owner`) on the
        first call only. Initialisation is one-shot: a failed creation is not retried. */
    method LocatePseudoWindow(owner: Option<Handle>, alloc: Option<FactoryId>,
                              createPseudoWindow: Option<Handle> -> WindowReply) returns (hwnd: Option<Handle>)
      requires Valid()
      modifies this`interactivityFactory, this`pseudoWindowInitialized, this`pseudoWindow
      ensures Valid()
      ensures var o := PseudoLocate(old(interactivityFactory), old(pseudoWindowInitialized), old(pseudoWindow),
                                    owner, alloc, createPseudoWindow);
              interactivityFactory == o.factory && pseudoWindowInitialized == o.initialized && pseudoWindow == o.window
      ensures hwnd == pseudoWindow
      ensures Grows(old(Snapshot()), Snapshot())
    {
      var status := STATUS_SUCCESS;
      if !pseudoWindowInitialized {
        if interactivityFactory.None? {
          status := LoadInteractivityFactory(alloc);
        }
        if NtSuccess(status) {
          var reply := createPseudoWindow(owner);
          status := reply.status;
          pseudoWindow := reply.hwnd;
        }
        pseudoWindowInitialized := true;
      }
      hwnd := pseudoWindow;
    }

    /** Installs the show/hide callback: the pseudo window is set up first
        (with the default desktop owner), then the callback goes to the factory
        if there is one. `forwarded` names the factory and the callback it received. */
    method SetPseudoWindowCallback(callback: CallbackId, alloc: Option<FactoryId>,
                                   createPseudoWindow: Option<Handle> -> WindowReply)
      returns (forwarded: Option<(FactoryId, CallbackId)>)
      requires Valid()
      modifies this`interactivityFactory, this`pseudoWindowInitialized, this`pseudoWindow
      ensures Valid() && pseudoWindowInitialized
      ensures var o := PseudoLocate(old(interactivityFactory), old(pseudoWindowInitialized), old(pseudoWindow),
                                    None, alloc, createPseudoWindow);
              interactivityFactory == o.factory && pseudoWindowInitialized == o.initialized && pseudoWindow == o.window
      ensures forwarded == if interactivityFactory.Some? then Some((interactivityFactory.value, callback)) else None
      ensures Grows(old(Snapshot()), Snapshot())
    {
      var _ := LocatePseudoWindow(None, alloc, createPseudoWindow);
      forwarded := None;
      if interactivityFactory.Some? {
        forwarded := Some((interactivityFactory.value, callback));
      }
    }
  }
}
