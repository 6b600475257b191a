/** The application kernel's process state machine: bootstrap stages
    register service providers, Init runs every provider's init step in
    ascending priority (registration order on ties), and the application
    forwards On and Trigger to its event dispatcher when one is installed. */
module Application {
  import Ordering
  import Events
  import opened Wrappers

  datatype Process = Uninitialized | Bootstrapping | Bootstrapped | Initializing | Inited

  /** A service provider, identified by its type. `providesEvents` marks the
      provider whose register step installs the event dispatcher. */
  datatype Provider = Provider(typeName: string, priority: int, providesEvents: bool)

  /** An observable provider step, in the order the application runs them. */
  datatype Step = Registered(typeName: string) | Initialized(typeName: string)

  /** The event fired once Init has run every provider. */
  const StartCompleted: string := "OnStartCompleted"

  function PriorityOf(p: Provider): int { p.priority }

  /** Every provider type occurs at most once. */
  ghost predicate UniqueTypes(ps: seq<Provider>) {
    forall i, j :: 0 <= i < j < |ps| ==> ps[i].typeName != ps[j].typeName
  }

  function TypeNames(ps: seq<Provider>): (r: set<string>)
    ensures forall p :: p in ps ==> p.typeName in r
    ensures forall t :: t in r ==> exists p :: p in ps && p.typeName == t
  {
    set p | p in ps :: p.typeName
  }

  /** The init steps of `ps`, one per provider, in order. */
  function InitSteps(ps: seq<Provider>): (r: seq<Step>)
    ensures |r| == |ps|
  {
    if ps == [] then [] else InitSteps(ps[..|ps| - 1]) + [Initialized(ps[|ps| - 1].typeName)]
  }

  /** The register steps of `ps`, one per provider, in order. */
  function RegisterSteps(ps: seq<Provider>): (r: seq<Step>)
    ensures |r| == |ps|
  {
    if ps == [] then [] else RegisterSteps(ps[..|ps| - 1]) + [Registered(ps[|ps| - 1].typeName)]
  }

  /** Whether one of `ps` is the provider that installs the dispatcher. */
  predicate HasEvents(ps: seq<Provider>) {
    exists p :: p in ps && p.providesEvents
  }

  /** The providers of all stages, in stage order. */
  function Flatten(stages: seq<seq<Provider>>): seq<Provider> {
    if stages == [] then [] else Flatten(stages[..|stages| - 1]) + stages[|stages| - 1]
  }

  class Application {
    var process: Process
    /** The registered providers, in registration order. */
    var providers: seq<Provider>
    /** Every provider step run so far. */
    var log: seq<Step>
    var guid: nat
    /** The identifiers GetGuid has handed out. */
    ghost var issued: set<nat>
    var dispatcher: Events.Dispatcher?

    ghost predicate Valid()
      reads this, dispatcher
    {
      UniqueTypes(providers) &&
      (forall g :: g in issued ==> g <= guid) &&
      (dispatcher != null ==> dispatcher.Valid())
    }

    constructor ()
      ensures Valid() && process == Uninitialized && providers == [] && log == []
      ensures dispatcher == null && issued == {}
    {
      process := Uninitialized;
      providers := [];
      log := [];
      guid := 0;
      issued := {};
      dispatcher := null;
    }

    /** Registers a provider and runs its register step. Fails for a null
        provider, for a provider type already registered, and once Init
        has started. */
    method Register(p: Option<Provider>) returns (r: Status)
      requires Valid()
      modifies this
      ensures Valid() && process == old(process) && guid == old(guid) && issued == old(issued)
      ensures p.None? ==> r == Fail(ArgumentNull)
      ensures p.Some? && p.value.typeName in TypeNames(old(providers)) ==> r == Fail(Runtime)
      ensures p.Some? && p.value.typeName !in TypeNames(old(providers)) &&
              old(process) in {Initializing, Inited}
              ==> r == Fail(Runtime)
      ensures r.Fail? ==> providers == old(providers) && log == old(log) && dispatcher == old(dispatcher)
      ensures r == Ok <==> p.Some? && p.value.typeName !in TypeNames(old(providers)) &&
                           old(process) !in {Initializing, Inited}
      ensures r == Ok ==> providers == old(providers) + [p.value] &&
                          log == old(log) + [Registered(p.value.typeName)]
      ensures r == Ok && p.value.providesEvents && old(dispatcher) == null ==>
                fresh(dispatcher) && dispatcher.listeners == map[] && dispatcher.calls == []
      ensures !(r == Ok && p.value.providesEvents && old(dispatcher) == null) ==> dispatcher == old(dispatcher)
    {
      if p.None? {
        return Fail(ArgumentNull);
      }
      var provider := p.value;
      if provider.typeName in TypeNames(providers) {
        return Fail(Runtime);
      }
      if process == Initializing || process == Inited {
        return Fail(Runtime);
      }
      if provider.providesEvents && dispatcher == null {
        dispatcher := new Events.Dispatcher();
      }
      log := log + [Registered(provider.typeName)];
      providers := providers + [provider];
      r := Ok;
    }

    /** Runs the bootstrap stages, each registering its providers. A null
        stage list is refused; once bootstrapped, a further call does
        nothing. A failing registration stops the bootstrap. */
    method Bootstrap(stages: Option<seq<seq<Provider>>>) returns (r: Status)
      requires Valid()
      modifies this
      ensures Valid() && guid == old(guid) && issued == old(issued)
      ensures stages.None? ==> r == Fail(ArgumentNull)
      ensures dispatcher == old(dispatcher) || fresh(dispatcher)
      ensures stages.None? || old(process) != Uninitialized ==>
                r.Fail? == stages.None? && process == old(process) &&
                providers == old(providers) && log == old(log) && dispatcher == old(dispatcher)
      ensures stages.Some? && old(process) == Uninitialized ==>
                (r == Ok <==> UniqueTypes(old(providers) + Flatten(stages.value)))
      ensures stages.Some? && old(process) == Uninitialized && r == Ok ==>
                process == Bootstrapped && providers == old(providers) + Flatten(stages.value) &&
                log == old(log) + RegisterSteps(Flatten(stages.value))
      ensures stages.Some? && old(process) == Uninitialized && r == Ok &&
              old(dispatcher) == null && HasEvents(Flatten(stages.value)) ==>
                dispatcher != null && fresh(dispatcher) && dispatcher.listeners == map[] && dispatcher.calls == []
      ensures stages.Some? && (forall p :: p in Flatten(stages.value) ==> !p.providesEvents) ==>
                dispatcher == old(dispatcher)
      ensures stages.Some? && old(process) == Uninitialized && r != Ok ==>
                r == Fail(Runtime) && process == Bootstrapping
    {
      if stages.None? {
        return Fail(ArgumentNull);
      }
      if process != Uninitialized {
        return Ok;
      }
      process := Bootstrapping;
      var all := Flatten(stages.value);
      var i := 0;
      while i < |all|
        invariant 0 <= i <= |all|
        invariant Valid() && process == Bootstrapping
        invariant providers == old(providers) + all[..i]
        invariant log == old(log) + RegisterSteps(all[..i])
        invariant old(dispatcher) == null && HasEvents(all[..i]) ==>
                    dispatcher != null && fresh(dispatcher) && dispatcher.listeners == map[] && dispatcher.calls == []
        invariant guid == old(guid) && issued == old(issued)
        invariant dispatcher == old(dispatcher) || fresh(dispatcher)
        invariant (forall k :: 0 <= k < i ==> !all[k].providesEvents) ==> dispatcher == old(dispatcher)
      {
        var s := Register(Some(all[i]));
        if s.Fail? {
          DuplicateStaysDuplicate(old(providers), all, i);
          return Fail(Runtime);
        }
        assert all[..i + 1] == all[..i] + [all[i]];
        assert all[..i + 1][..i] == all[..i];
        i := i + 1;
      }
      assert all[..i] == all;
      process := Bootstrapped;
      r := Ok;
    }

    /** Runs every provider's init step in ascending priority, then fires
        the start-completed event. Only a bootstrapped application that
        has not been initialized may be initialized. */
    method Init() returns (r: Status)
      requires Valid()
      modifies this, dispatcher
      ensures Valid()
      ensures providers == old(providers) && dispatcher == old(dispatcher)
      ensures guid == old(guid) && issued == old(issued)
      ensures old(process) != Bootstrapped ==> r == Fail(Runtime) && process == old(process) && log == old(log)
      ensures old(process) != Bootstrapped && dispatcher != null ==>
                dispatcher.calls == old(dispatcher.calls) && dispatcher.listeners == old(dispatcher.listeners)
      ensures old(process) == Bootstrapped ==>
                r == Ok && process == Inited &&
                log == old(log) + InitSteps(Ordering.SortBy(providers, PriorityOf))
      ensures old(process) == Bootstrapped && dispatcher != null ==>
                dispatcher.calls == old(dispatcher.calls) +
                  Events.Calls(old(dispatcher.ListenersOf(StartCompleted)), Events.Null)
      ensures old(process) == Bootstrapped && dispatcher != null ==>
                dispatcher.handlers == old(dispatcher.handlers) &&
                dispatcher.listeners == if StartCompleted in old(dispatcher.listeners)
                  then old(dispatcher.listeners)[StartCompleted := Events.Spend(old(dispatcher.ListenersOf(StartCompleted)))]
                  else old(dispatcher.listeners)
    {
      if process != Bootstrapped {
        return Fail(Runtime);
      }
      process := Initializing;
      RunInits(Ordering.SortBy(providers, PriorityOf));
      process := Inited;
      if dispatcher != null {
        ghost var ls := dispatcher.ListenersOf(StartCompleted);
        ghost var hs := dispatcher.handlers;
        assert Events.Invoked(hs, ls, Events.Null, false) == |ls|;
        assert ls[..|ls|] == ls && ls[|ls|..] == [];
        assert Events.Spend(ls[..|ls|]) + ls[|ls|..] == Events.Spend(ls);
        var _ := dispatcher.Trigger(StartCompleted, Events.Null, false);
      }
      r := Ok;
    }

    /** Runs the init steps of `ps` in their order. */
    method RunInits(ps: seq<Provider>)
      modifies this
      ensures log == old(log) + InitSteps(ps)
      ensures process == old(process) && providers == old(providers) && dispatcher == old(dispatcher)
      ensures guid == old(guid) && issued == old(issued)
    {
      var i := 0;
      while i < |ps|
        invariant 0 <= i <= |ps|
        invariant log == old(log) + InitSteps(ps[..i])
        invariant process == old(process) && providers == old(providers) && dispatcher == old(dispatcher)
        invariant guid == old(guid) && issued == old(issued)
      {
        log := log + [Initialized(ps[i].typeName)];
        assert ps[..i + 1][..i] == ps[..i];
        i := i + 1;
      }
      assert ps[..i] == ps;
    }

    /** A new identifier, different from every one handed out before. */
    method GetGuid() returns (g: nat)
      requires Valid()
      modifies this
      ensures Valid() && g !in old(issued) && issued == old(issued) + {g}
      ensures process == old(process) && providers == old(providers) && log == old(log)
      ensures dispatcher == old(dispatcher)
    {
      guid := guid + 1;
      g := guid;
      issued := issued + {g};
    }

    /** Registers a listener with the dispatcher; without one there is
        nothing to register with and no handle. */
    method On(name: string, handler: Events.Handler, priority: int, life: nat)
      returns (h: Option<Events.Handle>)
      requires Valid()
      modifies dispatcher
      ensures Valid()
      ensures dispatcher == null ==> h == None
      ensures dispatcher != null ==>
                h == Some(Events.Handle(name, old(dispatcher.nextId))) &&
                dispatcher.handlers == old(dispatcher.handlers)[h.value.id := handler] &&
                dispatcher.listeners == old(dispatcher.listeners)[name :=
                  Ordering.Insert(Events.Listener(h.value.id, priority, life),
                                  old(dispatcher.ListenersOf(name)), Events.PriorityOf)] &&
                dispatcher.calls == old(dispatcher.calls) && dispatcher.nextId == old(dispatcher.nextId) + 1
    {
      if dispatcher == null {
        return None;
      }
      var handle := dispatcher.On(name, handler, priority, life);
      h := Some(handle);
    }

    /** Fires `name` through the dispatcher. Without one the result is what
        a dispatcher with no listeners would give: null for a halting
        trigger, an empty array otherwise. */
    method Trigger(name: string, payload: Events.Value, halt: bool) returns (r: Events.Value)
      requires Valid()
      modifies dispatcher
      ensures Valid()
      ensures dispatcher == null ==> r == (if halt then Events.Null else Events.Array([]))
      ensures dispatcher != null ==>
                r == Events.Outcome(dispatcher.handlers, old(dispatcher.ListenersOf(name)), payload, halt) &&
                dispatcher.handlers == old(dispatcher.handlers) && dispatcher.nextId == old(dispatcher.nextId)
      ensures dispatcher != null ==>
                var ls := old(dispatcher.ListenersOf(name));
                var n := Events.Invoked(dispatcher.handlers, ls, payload, halt);
                dispatcher.calls == old(dispatcher.calls) + Events.Calls(ls[..n], payload) &&
                dispatcher.listeners == if name in old(dispatcher.listeners)
                                        then old(dispatcher.listeners)[name := Events.Spend(ls[..n]) + ls[n..]]
                                        else old(dispatcher.listeners)
    {
      if dispatcher == null {
        return if halt then Events.Null else Events.Array([]);
      }
      r := dispatcher.Trigger(name, payload, halt);
    }
  }

  /** A duplicate type stays a duplicate whatever is registered after it. */
  lemma DuplicateStaysDuplicate(p0: seq<Provider>, all: seq<Provider>, i: nat)
    requires i < |all| && all[i].typeName in TypeNames(p0 + all[..i])
    ensures !UniqueTypes(p0 + all)
  {
    var ps := p0 + all[..i];
    var q :| q in ps && q.typeName == all[i].typeName;
    var j :| 0 <= j < |ps| && ps[j] == q;
    var whole := p0 + all;
    assert whole[j] == q;
    assert whole[|p0| + i] == all[i];
  }

  /** The application without a dispatcher answers Trigger as a dispatcher
      with no listeners for the event does. */
  lemma NoDispatcherLikeNoListeners(handlers: map<nat, Events.Handler>, payload: Events.Value, halt: bool)
    ensures Events.Outcome(handlers, [], payload, halt) == (if halt then Events.Null else Events.Array([]))
  {
  }

  /** Providers of priority 10 and 5, registered in that order, are
      initialized priority 5 first. */
  lemma InitOrderExample()
    ensures var p1 := Provider("ProviderTest1", 10, false);
            var p2 := Provider("ProviderTest2", 5, false);
            InitSteps(Ordering.SortBy([p1, p2], PriorityOf))
              == [Initialized("ProviderTest2"), Initialized("ProviderTest1")]
  {
    var p1 := Provider("ProviderTest1", 10, false);
    var p2 := Provider("ProviderTest2", 5, false);
    assert [p1, p2][..1] == [p1];
    assert Ordering.SortBy([p1], PriorityOf) == [p1];
  }

  /** The init steps follow the sorted providers: ascending priority, and
      each provider exactly once. */
  lemma {:induction false} InitStepsOrdered(ps: seq<Provider>)
    ensures var sorted := Ordering.SortBy(ps, PriorityOf);
            |InitSteps(sorted)| == |ps| &&
            multiset(sorted) == multiset(ps) &&
            Ordering.SortedBy(sorted, PriorityOf) &&
            forall k :: 0 <= k < |sorted| ==> InitSteps(sorted)[k] == Initialized(sorted[k].typeName)
  {
    var sorted := Ordering.SortBy(ps, PriorityOf);
    Ordering.SortPermutes(ps, PriorityOf);
    Ordering.SortSorted(ps, PriorityOf);
    InitStepsAt(sorted);
  }

  lemma {:induction false} InitStepsAt(ps: seq<Provider>)
    ensures forall k :: 0 <= k < |ps| ==> InitSteps(ps)[k] == Initialized(ps[k].typeName)
  {
    if ps != [] {
      InitStepsAt(ps[..|ps| - 1]);
    }
  }

  /** Initializing twice fails the second time. */
  method RepeatInit() returns (first: Status, second: Status)
    ensures first == Ok && second == Fail(Runtime)
  {
    var app := new Application();
    var b := app.Bootstrap(Some([]));
    first := app.Init();
    second := app.Init();
  }

  /** Init without a bootstrap fails. */
  method InitWithoutBootstrap() returns (r: Status)
    ensures r == Fail(Runtime)
  {
    var app := new Application();
    r := app.Init();
  }

  /** A bootstrap after Init is accepted and leaves the process Inited. */
  method RepeatBootstrap() returns (r: Status, p: Process)
    ensures r == Ok && p == Inited
  {
    var app := new Application();
    var b := app.Bootstrap(Some([]));
    var i := app.Init();
    r := app.Bootstrap(Some([]));
    p := app.process;
  }

  /** A provider registered after Init is refused. */
  method RegisterAfterInit() returns (r: Status)
    ensures r == Fail(Runtime)
  {
    var app := new Application();
    var b := app.Bootstrap(Some([]));
    var s := app.Register(Some(Provider("ProviderTest1", 10, false)));
    var i := app.Init();
    r := app.Register(Some(Provider("ProviderTest2", 5, false)));
  }

  /** A null provider is refused with an argument error. */
  method RegisterNull() returns (r: Status)
    ensures r == Fail(ArgumentNull)
  {
    var app := new Application();
    var b := app.Bootstrap(Some([]));
    r := app.Register(None);
  }

  /** A null bootstrap list is refused with an argument error. */
  method BootstrapNull() returns (r: Status, p: Process)
    ensures r == Fail(ArgumentNull) && p == Uninitialized
  {
    var app := new Application();
    r := app.Bootstrap(None);
    p := app.process;
  }

  /** Once the application has started, registering another provider is
      refused. */
  method RegisterAfterStart() returns (r: Status)
    ensures r == Fail(Runtime)
  {
    var app := InitedWithEvents();
    r := app.Register(Some(Provider("ConfigProvider", 0, false)));
  }

  /** A second provider of an already registered type is refused. */
  method RegisterSameTypeTwice() returns (r: Status)
    ensures r == Fail(Runtime)
  {
    var app := new Application();
    var b := app.Bootstrap(Some([]));
    var s := app.Register(Some(Provider("ProviderTest1", 10, false)));
    r := app.Register(Some(Provider("ProviderTest1", 10, false)));
  }

  /** Two identifiers in a row differ. */
  method TwoGuids() returns (a: nat, b: nat)
    ensures a != b
  {
    var app := new Application();
    a := app.GetGuid();
    b := app.GetGuid();
  }

  /** With a dispatcher, a single listener's answer comes back unwrapped
      from a halting trigger; the listener was called once, with the
      payload given, and stays registered. */
  method TriggerWithDispatcher() returns (r: Events.Value, id: nat, calls: seq<Events.Call>)
    ensures r == Events.Number(123)
    ensures calls == [Events.Call(id, Events.Text("abc"))]
  {
    var app := InitedWithEvents();
    var h := app.On("testevent", _ => Events.Number(123), 0, 0);
    id := h.value.id;
    ghost var l := Events.Listener(id, 0, 0);
    assert app.dispatcher.ListenersOf("testevent") == [l];
    ghost var hs := app.dispatcher.handlers;
    Events.SingleListenerHalt(hs, l, Events.Text("abc"));
    assert Events.Respond(hs, l, Events.Text("abc")) == Events.Number(123);
    assert [l][..1] == [l];
    r := app.Trigger("testevent", Events.Text("abc"), true);
    calls := app.dispatcher.calls;
  }

  /** The providers of the test application: configuration, converters
      and the event dispatcher, all in one bootstrap stage. */
  function TestProviders(): (ps: seq<Provider>)
    ensures |ps| == 3 && HasEvents(ps)
  {
    [Provider("ConfigProvider", 0, false), Provider("ConvertersProvider", 0, false),
     Provider("EventsProvider", 0, true)]
  }

  /** An application bootstrapped with the test providers in one stage:
      each provider's register step ran, in order, and the events provider
      installed an empty dispatcher. */
  method BootstrappedWithEvents() returns (app: Application)
    ensures fresh(app) && app.Valid() && app.process == Bootstrapped
    ensures app.providers == TestProviders() && app.log == RegisterSteps(TestProviders())
    ensures app.dispatcher != null && fresh(app.dispatcher)
    ensures app.dispatcher.listeners == map[] && app.dispatcher.calls == []
  {
    app := new Application();
    var ps := TestProviders();
    TestProvidersStage();
    var b := app.Bootstrap(Some([ps]));
  }

  /** The test providers as one stage: distinct types, flattened unchanged. */
  lemma TestProvidersStage()
    ensures Flatten([TestProviders()]) == TestProviders()
    ensures UniqueTypes([] + TestProviders())
  {
    var ps := TestProviders();
    assert Flatten([ps][..0]) == [];
    assert [] + ps == ps;
    TestProvidersUnique();
  }

  lemma TestProvidersUnique()
    ensures UniqueTypes(TestProviders())
  {
    var ps := TestProviders();
    assert ps[0].typeName[3] == 'f' && ps[1].typeName[3] == 'v';
    assert ps[0].typeName[0] == ps[1].typeName[0] == 'C' && ps[2].typeName[0] == 'E';
  }

  /** The test application once initialized; no listener is registered
      yet, so the start-completed event reached nobody. */
  method InitedWithEvents() returns (app: Application)
    ensures fresh(app) && app.Valid() && app.process == Inited
    ensures app.providers == TestProviders()
    ensures app.dispatcher != null && fresh(app.dispatcher)
    ensures app.dispatcher.listeners == map[] && app.dispatcher.calls == []
  {
    app := BootstrappedWithEvents();
    assert app.dispatcher.ListenersOf(StartCompleted) == [];
    var i := app.Init();
  }

  /** Without a dispatcher On gives no handle, a halting trigger gives null
      and a full trigger an empty array. */
  method TriggerWithoutDispatcher() returns (h: Option<Events.Handle>, r1: Events.Value, r2: Events.Value)
    ensures h == None && r1 == Events.Null && r2 == Events.Array([])
  {
    var app := new Application();
    var b := app.Bootstrap(Some([]));
    var i := app.Init();
    h := app.On("testevent", _ => Events.Number(123), 0, 0);
    r1 := app.Trigger("testevent", Events.Text("abc"), true);
    r2 := app.Trigger("testevent", Events.Text("abc"), false);
  }
}
