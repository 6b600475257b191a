/** The per-tick object driver and the container's singleton cache it is
    bridged to. The driver keeps the attached objects (no duplicates) and
    calls their update, late-update and destroy hooks; it runs main-thread
    work at once on the main thread and queues it otherwise. The container
    builds objects from bindings, caches singletons per key and runs the
    key's release callbacks when a cached instance is dropped. A singleton
    the container builds is attached to the driver, and a released one is
    detached from it. */
module Driver {
  import opened Wrappers
  import Seqs

  /** The hooks an object's type implements. */
  datatype Capabilities = Capabilities(update: bool, lateUpdate: bool, destroy: bool)
  {
    /** Whether the driver takes the object at all. */
    predicate PerTick() { update || lateUpdate || destroy }
  }

  datatype Hook = UpdateHook | LateUpdateHook | DestroyHook

  predicate Has(caps: Capabilities, hook: Hook) {
    match hook
    case UpdateHook => caps.update
    case LateUpdateHook => caps.lateUpdate
    case DestroyHook => caps.destroy
  }

  /** An object the driver can drive. */
  class Component {
    const caps: Capabilities

    constructor (caps: Capabilities)
      ensures this.caps == caps
    {
      this.caps := caps;
    }
  }

  /** Work for the main thread: an action, or a coroutine given by the
      actions of its steps. */
  datatype Task = Action(id: nat) | Coroutine(steps: seq<nat>)

  /** An observable call: a hook of an object, or a step of main-thread work. */
  datatype Effect = Called(hook: Hook, target: Component) | Ran(id: nat)

  ghost predicate Distinct<T>(s: seq<T>) {
    forall i, j :: 0 <= i < j < |s| ==> s[i] != s[j]
  }

  /** `s` with `c` taken out. */
  function Without(s: seq<Component>, c: Component): (r: seq<Component>)
    ensures c !in r
    ensures forall i :: 0 <= i < |r| ==> r[i] in s
    ensures forall i :: 0 <= i < |s| && s[i] != c ==> s[i] in r
    ensures |r| <= |s|
  {
    if s == [] then [] else (if s[0] == c then [] else [s[0]]) + Without(s[1..], c)
  }

  /** The calls of `hook` on `s`, in order, skipping objects without it. */
  function Fire(s: seq<Component>, hook: Hook): (r: seq<Effect>)
    ensures |r| <= |s|
  {
    if s == [] then []
    else Fire(s[..|s| - 1], hook) + (if Has(s[|s| - 1].caps, hook) then [Called(hook, s[|s| - 1])] else [])
  }

  function Steps(ids: seq<nat>): (r: seq<Effect>)
    ensures |r| == |ids|
  {
    if ids == [] then [] else Steps(ids[..|ids| - 1]) + [Ran(ids[|ids| - 1])]
  }

  /** What running `t` does. */
  function Perform(t: Task): seq<Effect> {
    match t
    case Action(id) => [Ran(id)]
    case Coroutine(steps) => Steps(steps)
  }

  /** What running the queue in order does. */
  function Drain(q: seq<Task>): seq<Effect> {
    if q == [] then [] else Drain(q[..|q| - 1]) + Perform(q[|q| - 1])
  }

  /** The release callbacks of `key`. */
  function HooksOf(bindings: map<string, Binding>, key: string): seq<nat> {
    if key in bindings then bindings[key].onRelease else []
  }

  /** The release callbacks of every key of `keys`, key by key. */
  function HooksOfAll(bindings: map<string, Binding>, keys: seq<string>): seq<nat> {
    if keys == [] then [] else HooksOfAll(bindings, keys[..|keys| - 1]) + HooksOf(bindings, keys[|keys| - 1])
  }

  /** `after` is `before` without the entries caching an object of `gone`. */
  ghost predicate DroppedExactly(before: map<string, Option<Component>>, after: map<string, Option<Component>>,
                                 gone: seq<Component>)
  {
    (forall k :: k in after ==> k in before && after[k] == before[k]) &&
    (forall k :: k in before ==> (k in after <==> !(before[k].Some? && before[k].value in gone)))
  }

  class MonoDriver {
    /** The attached objects, in attach order. */
    var attached: seq<Component>
    /** Main-thread work queued from other threads. */
    var queue: seq<Task>
    /** Every hook call and work step so far. */
    var effects: seq<Effect>

    ghost predicate Valid()
      reads this
    {
      Distinct(attached) && forall i :: 0 <= i < |attached| ==> attached[i].caps.PerTick()
    }

    constructor ()
      ensures Valid() && attached == [] && queue == [] && effects == []
    {
      attached := [];
      queue := [];
      effects := [];
    }

    /** Attaches `c`; an object with no hook is not taken, an object
        already attached is refused. */
    method Attach(c: Component) returns (r: Status)
      requires Valid()
      modifies this
      ensures Valid() && queue == old(queue) && effects == old(effects)
      ensures c in old(attached) ==> r == Fail(Runtime) && attached == old(attached)
      ensures c !in old(attached) ==>
                r == Ok && attached == old(attached) + (if c.caps.PerTick() then [c] else [])
    {
      if c in attached {
        return Fail(Runtime);
      }
      if c.caps.PerTick() {
        attached := attached + [c];
      }
      r := Ok;
    }

    /** Detaches `c` and calls its destroy hook; an object that is not
        attached is left alone. */
    method Detach(c: Component)
      requires Valid()
      modifies this
      ensures Valid() && queue == old(queue)
      ensures attached == Without(old(attached), c)
      ensures effects == old(effects) + (if c in old(attached) then Fire([c], DestroyHook) else [])
    {
      if c !in attached {
        WithoutAbsent(attached, c);
        return;
      }
      WithoutDistinct(attached, c);
      attached := Without(attached, c);
      effects := effects + Fire([c], DestroyHook);
    }

    /** Runs `t` to its end. */
    method Run(t: Task)
      modifies this
      ensures effects == old(effects) + Perform(t)
      ensures attached == old(attached) && queue == old(queue)
    {
      match t
      case Action(id) =>
        effects := effects + [Ran(id)];
      case Coroutine(steps) =>
        var i := 0;
        while i < |steps|
          invariant 0 <= i <= |steps|
          invariant effects == old(effects) + Steps(steps[..i])
          invariant attached == old(attached) && queue == old(queue)
        {
          effects := effects + [Ran(steps[i])];
          assert steps[..i + 1][..i] == steps[..i];
          i := i + 1;
        }
        assert steps[..i] == steps;
    }

    /** Main-thread work: run at once on the main thread, queued otherwise. */
    method MainThread(t: Task, onMainThread: bool)
      modifies this
      ensures attached == old(attached)
      ensures onMainThread ==> effects == old(effects) + Perform(t) && queue == old(queue)
      ensures !onMainThread ==> effects == old(effects) && queue == old(queue) + [t]
    {
      if onMainThread {
        Run(t);
      } else {
        queue := queue + [t];
      }
    }

    /** Starts a coroutine; it has run all its steps when the call returns. */
    method StartCoroutine(steps: seq<nat>)
      modifies this
      ensures effects == old(effects) + Steps(steps)
      ensures attached == old(attached) && queue == old(queue)
    {
      Run(Coroutine(steps));
    }

    /** Calls `hook` on every attached object that has it, in attach order. */
    method Broadcast(hook: Hook)
      modifies this
      ensures effects == old(effects) + Fire(attached, hook)
      ensures attached == old(attached) && queue == old(queue)
    {
      var i := 0;
      while i < |attached|
        invariant 0 <= i <= |attached|
        invariant effects == old(effects) + Fire(attached[..i], hook)
        invariant attached == old(attached) && queue == old(queue)
      {
        var c := attached[i];
        effects := effects + (if Has(c.caps, hook) then [Called(hook, c)] else []);
        assert attached[..i + 1][..i] == attached[..i];
        i := i + 1;
      }
      assert attached[..i] == attached;
    }

    /** One frame: the queued work in order, then every update hook. */
    method Update()
      requires Valid()
      modifies this
      ensures Valid() && attached == old(attached) && queue == []
      ensures effects == old(effects) + Drain(old(queue)) + Fire(attached, UpdateHook)
    {
      var q := queue;
      var i := 0;
      while i < |q|
        invariant 0 <= i <= |q|
        invariant effects == old(effects) + Drain(q[..i])
        invariant attached == old(attached) && queue == q
      {
        Run(q[i]);
        assert q[..i + 1][..i] == q[..i] && q[..i + 1][i] == q[i];
        assert Drain(q[..i + 1]) == Drain(q[..i]) + Perform(q[i]);
        Seqs.ConcatAssoc(old(effects), Drain(q[..i]), Perform(q[i]));
        i := i + 1;
      }
      assert q[..i] == q;
      queue := [];
      Broadcast(UpdateHook);
    }

    /** The late update of a frame: every late-update hook. */
    method LateUpdate()
      requires Valid()
      modifies this
      ensures Valid() && attached == old(attached) && queue == old(queue)
      ensures effects == old(effects) + Fire(attached, LateUpdateHook)
    {
      Broadcast(LateUpdateHook);
    }

    /** Tears the driver down: every attached object cached by the
        container is released (running the release callbacks of its keys),
        every other one is detached. Each destroy hook runs exactly once. */
    method OnDestroy(container: Container) returns (ghost released: seq<string>)
      requires Valid() && container.driver == this
      modifies this, container
      ensures Valid() && attached == [] && queue == old(queue)
      ensures effects == old(effects) + Fire(old(attached), DestroyHook)
      ensures container.bindings == old(container.bindings)
      ensures DroppedExactly(old(container.instances), container.instances, old(attached))
      ensures ReleasedExactly(old(container.instances), container.instances, released)
      ensures container.fired == old(container.fired) + HooksOfAll(container.bindings, released)
    {
      released := [];
      var objs := attached;
      var i := 0;
      while i < |objs|
        invariant 0 <= i <= |objs|
        invariant Valid() && container.driver == this
        invariant attached == objs[i..] && queue == old(queue)
        invariant effects == old(effects) + Fire(objs[..i], DestroyHook)
        invariant container.bindings == old(container.bindings)
        invariant DroppedExactly(old(container.instances), container.instances, objs[..i])
        invariant ReleasedExactly(old(container.instances), container.instances, released)
        invariant container.fired == old(container.fired) + HooksOfAll(container.bindings, released)
      {
        ghost var before := container.instances;
        ghost var e, f := effects, container.fired;
        ghost var more := Retire(container);
        HooksOfAllAppend(container.bindings, released, more);
        Seqs.ConcatAssoc(old(container.fired), HooksOfAll(container.bindings, released), HooksOfAll(container.bindings, more));
        DroppedStep(old(container.instances), before, container.instances, objs[..i], objs[i], released, more);
        released := released + more;
        assert objs[..i + 1] == objs[..i] + [objs[i]];
        FireAppend(objs[..i], [objs[i]], DestroyHook);
        Seqs.ConcatAssoc(old(effects), Fire(objs[..i], DestroyHook), Fire([objs[i]], DestroyHook));
        i := i + 1;
      }
      assert objs[..i] == objs;
    }

    /** Releases or detaches the first attached object. */
    method Retire(container: Container) returns (ghost released: seq<string>)
      requires Valid() && container.driver == this && attached != []
      modifies this, container
      ensures Valid() && attached == old(attached)[1..] && queue == old(queue)
      ensures effects == old(effects) + Fire([old(attached)[0]], DestroyHook)
      ensures container.bindings == old(container.bindings)
      ensures DroppedExactly(old(container.instances), container.instances, [old(attached)[0]])
      ensures ReleasedExactly(old(container.instances), container.instances, released)
      ensures container.fired == old(container.fired) + HooksOfAll(container.bindings, released)
    {
      var c := attached[0];
      WithoutHead(attached);
      released := container.ReleaseComponent(c);
      if c in attached {
        Detach(c);
      }
    }
  }

  /** A binding: the hooks of what it builds, whether it is a singleton,
      and its release callbacks in registration order. */
  datatype Binding = Binding(caps: Capabilities, singleton: bool, onRelease: seq<nat>)

  class Container {
    const driver: MonoDriver
    var bindings: map<string, Binding>
    /** The cached instance of each key; None is a null installed by Instance. */
    var instances: map<string, Option<Component>>
    /** Every release callback run so far. */
    var fired: seq<nat>

    ghost predicate Valid()
      reads this, driver
    {
      driver.Valid()
    }

    constructor ()
      ensures Valid() && fresh(driver)
      ensures bindings == map[] && instances == map[] && fired == []
      ensures driver.attached == [] && driver.queue == [] && driver.effects == []
    {
      driver := new MonoDriver();
      bindings := map[];
      instances := map[];
      fired := [];
    }

    /** Binds `key` to objects with hooks `caps`. The key must be non-empty
        and not bound yet. */
    method Bind(key: string, caps: Capabilities, singleton: bool) returns (r: Status)
      modifies this
      ensures instances == old(instances) && fired == old(fired)
      ensures key == [] ==> r == Fail(ArgumentNull) && bindings == old(bindings)
      ensures key != [] && key in old(bindings) ==> r == Fail(DuplicateBinding) && bindings == old(bindings)
      ensures key != [] && key !in old(bindings) ==>
                r == Ok && bindings == old(bindings)[key := Binding(caps, singleton, [])]
    {
      if key == [] {
        return Fail(ArgumentNull);
      }
      if key in bindings {
        return Fail(DuplicateBinding);
      }
      bindings := bindings[key := Binding(caps, singleton, [])];
      r := Ok;
    }

    /** Adds a release callback to the binding of `key`. */
    method OnRelease(key: string, callback: nat)
      requires key in bindings
      modifies this
      ensures instances == old(instances) && fired == old(fired)
      ensures bindings == old(bindings)[key := old(bindings)[key].(onRelease := old(bindings)[key].onRelease + [callback])]
    {
      var b := bindings[key];
      bindings := bindings[key := b.(onRelease := b.onRelease + [callback])];
    }

    /** Resolves `key`: the cached instance if there is one, otherwise a new
        object from the binding, cached and attached to the driver when the
        binding is a singleton. An unbound key is not found. */
    method Make(key: string) returns (r: Result<Option<Component>>)
      requires Valid()
      modifies this, driver
      ensures Valid() && bindings == old(bindings) && fired == old(fired)
      ensures driver.queue == old(driver.queue) && driver.effects == old(driver.effects)
      ensures key in old(instances) ==>
                r == Success(old(instances)[key]) && instances == old(instances) &&
                driver.attached == old(driver.attached)
      ensures key !in old(instances) && key !in bindings ==>
                r == Failure(NotFound) && instances == old(instances) && driver.attached == old(driver.attached)
      ensures key !in old(instances) && key in bindings ==>
                r.Success? && r.value.Some? && fresh(r.value.value) && r.value.value.caps == bindings[key].caps
      ensures key !in old(instances) && key in bindings && bindings[key].singleton ==>
                instances == old(instances)[key := r.value] &&
                driver.attached == old(driver.attached) + (if bindings[key].caps.PerTick() then [r.value.value] else [])
      ensures key !in old(instances) && key in bindings && !bindings[key].singleton ==>
                instances == old(instances) && driver.attached == old(driver.attached)
    {
      if key in instances {
        return Success(instances[key]);
      }
      if key !in bindings {
        return Failure(NotFound);
      }
      var b := bindings[key];
      var c := new Component(b.caps);
      if b.singleton {
        instances := instances[key := Some(c)];
        var _ := driver.Attach(c);
      }
      r := Success(Some(c));
    }

    /** Drops the cached instance of `key`: its release callbacks run and
        it is detached. Nothing happens when no object is cached. */
    method Release(key: string) returns (released: bool)
      requires Valid()
      modifies this, driver
      ensures Valid() && bindings == old(bindings) && driver.queue == old(driver.queue)
      ensures released <==> key in old(instances) && old(instances)[key].Some?
      ensures instances == old(instances) - {key}
      ensures fired == old(fired) + (if released then HooksOf(bindings, key) else [])
      ensures released ==>
                var c := old(instances)[key].value;
                driver.attached == Without(old(driver.attached), c) &&
                driver.effects == old(driver.effects) + (if c in old(driver.attached) then Fire([c], DestroyHook) else [])
      ensures !released ==> driver.attached == old(driver.attached) && driver.effects == old(driver.effects)
    {
      if key !in instances {
        return false;
      }
      var v := instances[key];
      instances := instances - {key};
      if v.None? {
        return false;
      }
      fired := fired + HooksOf(bindings, key);
      driver.Detach(v.value);
      released := true;
    }

    /** Installs `v` as the cached instance of `key`, after releasing the
        one cached before. */
    method Instance(key: string, v: Option<Component>)
      requires Valid()
      modifies this, driver
      ensures Valid() && bindings == old(bindings) && driver.queue == old(driver.queue)
      ensures instances == old(instances)[key := v]
      ensures var released := key in old(instances) && old(instances)[key].Some?;
              fired == old(fired) + (if released then HooksOf(bindings, key) else []) &&
              (released ==>
                var c := old(instances)[key].value;
                driver.attached == Without(old(driver.attached), c) &&
                driver.effects == old(driver.effects) + (if c in old(driver.attached) then Fire([c], DestroyHook) else [])) &&
              (!released ==> driver.attached == old(driver.attached) && driver.effects == old(driver.effects))
    {
      var _ := Release(key);
      instances := instances[key := v];
    }

    /** Releases every key that caches `c`. */
    method ReleaseComponent(c: Component) returns (ghost released: seq<string>)
      requires Valid()
      modifies this, driver
      ensures Valid() && bindings == old(bindings) && driver.queue == old(driver.queue)
      ensures DroppedExactly(old(instances), instances, [c])
      ensures ReleasedExactly(old(instances), instances, released)
      ensures fired == old(fired) + HooksOfAll(bindings, released)
      ensures released == [] ==> driver.attached == old(driver.attached) && driver.effects == old(driver.effects)
      ensures released != [] ==> Detached(old(driver.attached), old(driver.effects), driver.attached, driver.effects, c)
    {
      released := [];
      while exists k :: k in instances && instances[k] == Some(c)
        invariant Valid() && bindings == old(bindings) && driver.queue == old(driver.queue)
        invariant Releasing(old(instances), old(driver.attached), old(driver.effects), old(fired), c, released)
        decreases |instances|
      {
        var k :| k in instances && instances[k] == Some(c);
        released := ReleaseNext(c, k, old(instances), old(driver.attached), old(driver.effects), old(fired), released);
      }
      DroppingDone(old(instances), instances, c);
    }

    /** Whether, starting from instances `m0`, attached objects `a0`,
        effects `e0` and callbacks `f0`, the keys `released` (and no
        others) caching `c` have been released. */
    ghost predicate Releasing(m0: map<string, Option<Component>>, a0: seq<Component>, e0: seq<Effect>,
                              f0: seq<nat>, c: Component, released: seq<string>)
      reads this, driver
    {
      && Dropping(m0, instances, c)
      && ReleasedExactly(m0, instances, released)
      && fired == f0 + HooksOfAll(bindings, released)
      && (released == [] ==> driver.attached == a0 && driver.effects == e0)
      && (released != [] ==> Detached(a0, e0, driver.attached, driver.effects, c))
    }

    /** One step of ReleaseComponent: releases key `k`, which caches `c`. */
    method ReleaseNext(c: Component, k: string, ghost m0: map<string, Option<Component>>, ghost a0: seq<Component>,
                       ghost e0: seq<Effect>, ghost f0: seq<nat>, ghost released: seq<string>)
      returns (ghost released': seq<string>)
      requires Valid() && k in instances && instances[k] == Some(c)
      requires Releasing(m0, a0, e0, f0, c, released)
      modifies this, driver
      ensures Valid() && bindings == old(bindings) && driver.queue == old(driver.queue)
      ensures instances == old(instances) - {k}
      ensures released' == released + [k] && Releasing(m0, a0, e0, f0, c, released')
    {
      ghost var before, e := driver.attached, driver.effects;
      ghost var f := fired;
      var ok := Release(k);
      assert ok && fired == f + HooksOf(bindings, k);
      assert Detached(before, e, driver.attached, driver.effects, c);
      if released != [] {
        DetachedTwice(a0, e0, before, e, driver.attached, driver.effects, c);
      }
      ReleaseOne(m0, old(instances), released, k, c);
      released' := released + [k];
      assert released'[..|released|] == released;
      ghost var before_hooks, these := HooksOfAll(bindings, released), HooksOf(bindings, k);
      assert HooksOfAll(bindings, released') == before_hooks + these;
      Seqs.ConcatAssoc(f0, before_hooks, these);
    }
  }

  /** `a`, `e` are the attached objects and the effects after detaching
      `c` from attached objects `a0` with effects `e0`. */
  ghost predicate Detached(a0: seq<Component>, e0: seq<Effect>, a: seq<Component>, e: seq<Effect>, c: Component) {
    a == Without(a0, c) && e == e0 + (if c in a0 then Fire([c], DestroyHook) else [])
  }

  /** Detaching an object a second time changes nothing. */
  lemma DetachedTwice(a0: seq<Component>, e0: seq<Effect>, a1: seq<Component>, e1: seq<Effect>,
                      a2: seq<Component>, e2: seq<Effect>, c: Component)
    requires Detached(a0, e0, a1, e1, c) && Detached(a1, e1, a2, e2, c)
    ensures Detached(a0, e0, a2, e2, c)
  {
    WithoutAbsent(a1, c);
  }

  lemma DroppingDone(m0: map<string, Option<Component>>, m1: map<string, Option<Component>>, c: Component)
    requires Dropping(m0, m1, c) && forall k :: k in m1 ==> m1[k] != Some(c)
    ensures DroppedExactly(m0, m1, [c])
  {
  }

  /** `after` keeps every entry of `before` except some that cache `c`. */
  ghost predicate Dropping(before: map<string, Option<Component>>, after: map<string, Option<Component>>, c: Component) {
    (forall k :: k in after ==> k in before && after[k] == before[k]) &&
    (forall k :: k in before && before[k] != Some(c) ==> k in after)
  }

  /** `keys` lists, once each, the keys of `before` missing from `after`. */
  ghost predicate ReleasedExactly(before: map<string, Option<Component>>, after: map<string, Option<Component>>,
                                  keys: seq<string>)
  {
    Distinct(keys) && forall k :: k in keys <==> k in before && k !in after
  }

  lemma ReleaseOne(m0: map<string, Option<Component>>, m1: map<string, Option<Component>>,
                   keys: seq<string>, k: string, c: Component)
    requires Dropping(m0, m1, c) && ReleasedExactly(m0, m1, keys) && k in m1 && m1[k] == Some(c)
    ensures Dropping(m0, m1 - {k}, c) && ReleasedExactly(m0, m1 - {k}, keys + [k])
  {
    DistinctAppend(keys, [k]);
  }

  lemma {:induction false} WithoutAbsent(s: seq<Component>, c: Component)
    requires c !in s
    ensures Without(s, c) == s
  {
    if s != [] {
      assert s[0] != c;
      assert Without(s, c) == [s[0]] + Without(s[1..], c);
      WithoutAbsent(s[1..], c);
      assert s == [s[0]] + s[1..];
    }
  }

  lemma {:induction false} WithoutDistinct(s: seq<Component>, c: Component)
    requires Distinct(s)
    ensures Distinct(Without(s, c))
    ensures forall i :: 0 <= i < |Without(s, c)| ==> Without(s, c)[i] in s
  {
    if s != [] {
      WithoutDistinct(s[1..], c);
    }
  }

  /** Taking out the first of a duplicate-free sequence leaves the rest. */
  lemma WithoutHead(s: seq<Component>)
    requires s != [] && Distinct(s)
    ensures Without(s, s[0]) == s[1..]
  {
    WithoutAbsent(s[1..], s[0]);
  }

  /** Attaching and then detaching an object gives back the attached
      objects as they were. */
  lemma {:induction false} AttachDetach(s: seq<Component>, c: Component)
    requires c !in s
    ensures Without(s + [c], c) == s
  {
    var t := s + [c];
    if s == [] {
      assert t[1..] == [];
      assert Without(t, c) == [] + Without([], c);
    } else {
      assert t[0] == s[0] != c && t[1..] == s[1..] + [c];
      assert Without(t, c) == [s[0]] + Without(s[1..] + [c], c);
      AttachDetach(s[1..], c);
      assert s == [s[0]] + s[1..];
    }
  }

  /** A hook reaches exactly the objects of `s` that have it. */
  lemma {:induction false} FireReaches(s: seq<Component>, hook: Hook, c: Component)
    ensures Called(hook, c) in Fire(s, hook) <==> c in s && Has(c.caps, hook)
  {
    if s != [] {
      FireReaches(s[..|s| - 1], hook, c);
      assert s == s[..|s| - 1] + [s[|s| - 1]];
    }
  }

  /** In a duplicate-free sequence each object's hook is called once. */
  lemma {:induction false} FireOnce(s: seq<Component>, hook: Hook, c: Component)
    requires Distinct(s)
    ensures multiset(Fire(s, hook))[Called(hook, c)] == if c in s && Has(c.caps, hook) then 1 else 0
  {
    if s != [] {
      var init, last := s[..|s| - 1], s[|s| - 1];
      assert s == init + [last];
      assert Distinct(init) && last !in init;
      FireOnce(init, hook, c);
      var tail := if Has(last.caps, hook) then [Called(hook, last)] else [];
      assert multiset(Fire(s, hook)) == multiset(Fire(init, hook)) + multiset(tail);
      assert multiset(tail)[Called(hook, c)] == if last == c && Has(c.caps, hook) then 1 else 0;
    }
  }

  /** After a detach, an update no longer reaches the object. */
  lemma DetachStopsUpdate(s: seq<Component>, c: Component)
    ensures Called(UpdateHook, c) !in Fire(Without(s, c), UpdateHook)
  {
    FireReaches(Without(s, c), UpdateHook, c);
  }

  lemma {:induction false} FireAppend(a: seq<Component>, b: seq<Component>, hook: Hook)
    ensures Fire(a + b, hook) == Fire(a, hook) + Fire(b, hook)
  {
    if b != [] {
      var init, last := b[..|b| - 1], b[|b| - 1];
      assert (a + b)[..|a + b| - 1] == a + init;
      assert (a + b)[|a + b| - 1] == last;
      FireAppend(a, init, hook);
      Seqs.ConcatAssoc(Fire(a, hook), Fire(init, hook),
                  if Has(last.caps, hook) then [Called(hook, last)] else []);
    } else {
      assert a + b == a;
    }
  }

  /** Queued work runs first in, first out. */
  lemma {:induction false} DrainAppend(p: seq<Task>, q: seq<Task>)
    ensures Drain(p + q) == Drain(p) + Drain(q)
  {
    if q != [] {
      var init := q[..|q| - 1];
      assert (p + q)[..|p + q| - 1] == p + init;
      assert (p + q)[|p + q| - 1] == q[|q| - 1];
      DrainAppend(p, init);
      Seqs.ConcatAssoc(Drain(p), Drain(init), Perform(q[|q| - 1]));
    } else {
      assert p + q == p;
    }
  }

  lemma {:induction false} HooksOfAllAppend(bindings: map<string, Binding>, a: seq<string>, b: seq<string>)
    ensures HooksOfAll(bindings, a + b) == HooksOfAll(bindings, a) + HooksOfAll(bindings, b)
  {
    if b != [] {
      var init := b[..|b| - 1];
      assert (a + b)[..|a + b| - 1] == a + init;
      assert (a + b)[|a + b| - 1] == b[|b| - 1];
      HooksOfAllAppend(bindings, a, init);
      Seqs.ConcatAssoc(HooksOfAll(bindings, a), HooksOfAll(bindings, init), HooksOf(bindings, b[|b| - 1]));
    } else {
      assert a + b == a;
    }
  }

  lemma DistinctAppend<T>(a: seq<T>, b: seq<T>)
    requires Distinct(a) && Distinct(b) && forall x :: x in a ==> x !in b
    ensures Distinct(a + b)
  {
    forall i, j | 0 <= i < j < |a + b| ensures (a + b)[i] != (a + b)[j] {
      if j >= |a| && i < |a| {
        assert (a + b)[i] in a && (a + b)[j] in b;
      }
    }
  }

  lemma DroppedStep(m0: map<string, Option<Component>>, m1: map<string, Option<Component>>,
                    m2: map<string, Option<Component>>, gone: seq<Component>, c: Component,
                    a: seq<string>, b: seq<string>)
    requires DroppedExactly(m0, m1, gone) && DroppedExactly(m1, m2, [c])
    requires ReleasedExactly(m0, m1, a) && ReleasedExactly(m1, m2, b)
    ensures DroppedExactly(m0, m2, gone + [c]) && ReleasedExactly(m0, m2, a + b)
  {
    DistinctAppend(a, b);
  }

  /** A distinct sequence whose only element is `key` is `[key]`. */
  lemma OnlyKey(s: seq<string>, key: string)
    requires Distinct(s) && forall k :: k in s <==> k == key
    ensures s == [key]
  {
    assert key in s;
    forall i | 0 <= i < |s| ensures s[i] == key {
      assert s[i] in s;
    }
    assert s[0] == key && s[|s| - 1] == key;
    if |s| > 1 {
      assert false;
    }
  }

  /** An object with all three hooks. */
  const AllHooks: Capabilities := Capabilities(true, true, true)

  /** A container that has built and cached one singleton with all hooks
      under "TestStaticClass"; the singleton is attached to its driver. */
  method MadeSingleton() returns (app: Container, c: Component)
    ensures fresh(app) && fresh(app.driver) && app.Valid()
    ensures app.bindings == map["TestStaticClass" := Binding(AllHooks, true, [])]
    ensures app.instances == map["TestStaticClass" := Some(c)] && app.fired == []
    ensures app.driver.attached == [c] && app.driver.queue == [] && app.driver.effects == []
    ensures c.caps == AllHooks
  {
    app := new Container();
    var _ := app.Bind("TestStaticClass", AllHooks, true);
    var m := app.Make("TestStaticClass");
    c := m.value.value;
  }

  /** A made singleton with hooks is attached: the next update reaches it. */
  method MakeAttaches() returns (c: Component, effects: seq<Effect>)
    ensures effects == [Called(UpdateHook, c)]
  {
    var app;
    app, c := MadeSingleton();
    assert [c][..0] == [];
    app.driver.Update();
    effects := app.driver.effects;
  }

  /** A released singleton is detached (its destroy hook runs) and the
      next update does not reach it. */
  method ReleaseDetaches() returns (c: Component, effects: seq<Effect>)
    ensures effects == [Called(DestroyHook, c)]
  {
    var app;
    app, c := MadeSingleton();
    var released := app.Release("TestStaticClass");
    assert app.driver.effects == [Called(DestroyHook, c)] && app.driver.attached == [];
    app.driver.Update();
    effects := app.driver.effects;
  }

  /** Replacing a singleton with null detaches it; a release afterwards
      finds nothing to release and does not fail. */
  method InstanceNullDetaches() returns (c: Component, effects: seq<Effect>, released: bool)
    ensures effects == [Called(DestroyHook, c)] && !released
  {
    var app;
    app, c := MadeSingleton();
    app.Instance("TestStaticClass", None);
    assert app.driver.effects == [Called(DestroyHook, c)] && app.driver.attached == [];
    app.driver.Update();
    effects := app.driver.effects;
    released := app.Release("TestStaticClass");
  }

  /** Update then late update reach the object; after a detach only its
      destroy hook has run, and further frames do not reach it. */
  method UpdateLateUpdateDetach() returns (c: Component, effects: seq<Effect>)
    ensures effects == [Called(UpdateHook, c), Called(LateUpdateHook, c), Called(DestroyHook, c)]
  {
    var app;
    app, c := MadeSingleton();
    var d := app.driver;
    assert [c][..0] == [];
    d.Update();
    d.LateUpdate();
    d.Detach(c);
    ghost var frame := [Called(UpdateHook, c), Called(LateUpdateHook, c), Called(DestroyHook, c)];
    assert d.effects == frame && d.attached == [] && d.queue == [];
    d.Update();
    d.LateUpdate();
    effects := d.effects;
  }

  /** Attaching an object twice fails the second time. */
  method AttachTwice() returns (first: Status, second: Status)
    ensures first == Ok && second == Fail(Runtime)
  {
    var d := new MonoDriver();
    var c := new Component(AllHooks);
    first := d.Attach(c);
    second := d.Attach(c);
  }

  /** Detaching an object that was never attached runs no hook. */
  method DetachUnattached() returns (effects: seq<Effect>)
    ensures effects == []
  {
    var d := new MonoDriver();
    var c := new Component(AllHooks);
    d.Detach(c);
    effects := d.effects;
  }

  /** Main-thread work called on the main thread has run on return, a
      coroutine included. */
  method MainThreadRuns() returns (effects: seq<Effect>)
    ensures effects == [Ran(1), Ran(2), Ran(3)]
  {
    var d := new MonoDriver();
    d.MainThread(Action(1), true);
    d.StartCoroutine([2, 3]);
    effects := d.effects;
  }

  /** Tearing the driver down detaches everything: the next update reaches
      nothing. */
  method TeardownEmpties() returns (c: Component, effects: seq<Effect>)
    ensures effects == [Called(DestroyHook, c)]
  {
    var app := new Container();
    c := new Component(AllHooks);
    var _ := app.driver.Attach(c);
    ghost var released := app.driver.OnDestroy(app);
    app.driver.Update();
    effects := app.driver.effects;
  }

  /** Tearing down the driver releases a cached singleton: its binding's
      release callback runs once and its destroy hook runs once. */
  method TeardownReleasesOnce() returns (c: Component, fired: seq<nat>, effects: seq<Effect>)
    ensures fired == [1] && effects == [Called(DestroyHook, c)]
  {
    var app := new Container();
    var key := "DoubleDestroyClass";
    var _ := app.Bind(key, Capabilities(false, false, true), true);
    app.OnRelease(key, 1);
    var m := app.Make(key);
    c := m.value.value;
    ghost var cached := app.instances;
    assert cached == map[key := Some(c)];
    ghost var released := app.driver.OnDestroy(app);
    assert app.instances == map[];
    OnlyKey(released, key);
    fired := app.fired;
    effects := app.driver.effects;
  }
}
