/** The configuration manager and the configuration objects it hands out.
    The manager keeps a default name, one factory per name, and a cache of
    the objects it has built, one per name. An absent or empty name means
    the default name, and an empty default name means "default". A
    configuration object stores values by key and calls, in registration
    order, every watcher registered on the key that is set. */
module Configuration {
  import opened Wrappers

  /** The name a lookup falls back to when no default name is set. */
  const FallbackName := "default"

  /** The name a lookup with `name` resolves to under the default name
      `defaultName`. */
  function Resolve(defaultName: string, name: Option<string>): (r: string)
    ensures r != ""
    ensures name.Some? && name.value != "" ==> r == name.value
    ensures (name.None? || name.value == "") && defaultName != "" ==> r == defaultName
    ensures (name.None? || name.value == "") && defaultName == "" ==> r == FallbackName
  {
    if name.Some? && name.value != "" then name.value
    else if defaultName != "" then defaultName
    else FallbackName
  }

  /** A watcher: the callback `id` registered on `key`. */
  datatype Watcher = Watcher(key: string, id: nat)

  /** A callback invocation: callback `id` was passed `value`. */
  datatype Notice = Notice(id: nat, value: string)

  /** The callbacks that setting `key` to `value` invokes, in registration
      order. */
  function Notices(ws: seq<Watcher>, key: string, value: string): (r: seq<Notice>)
    ensures |r| <= |ws|
    ensures forall i :: 0 <= i < |r| ==> r[i].value == value
  {
    if ws == [] then []
    else
      var last := ws[|ws| - 1];
      Notices(ws[..|ws| - 1], key, value)
        + (if last.key == key then [Notice(last.id, value)] else [])
  }

  /** Setting a key invokes callback `id` with `v` exactly when `v` is the
      new value and `id` watches that key. */
  lemma {:induction false} NoticeIff(ws: seq<Watcher>, key: string, value: string, id: nat, v: string)
    ensures Notice(id, v) in Notices(ws, key, value) <==> v == value && Watcher(key, id) in ws
  {
    if ws != [] {
      var init, last := ws[..|ws| - 1], ws[|ws| - 1];
      assert ws == init + [last];
      NoticeIff(init, key, value, id, v);
    }
  }

  /** Setting a key nobody watches invokes no callback. */
  lemma {:induction false} UnwatchedSilent(ws: seq<Watcher>, key: string, value: string)
    requires forall i :: 0 <= i < |ws| ==> ws[i].key != key
    ensures Notices(ws, key, value) == []
  {
    if ws != [] {
      UnwatchedSilent(ws[..|ws| - 1], key, value);
    }
  }

  /** Watchers registered later are invoked after those registered
      earlier. */
  lemma {:induction false} NoticesAppend(a: seq<Watcher>, b: seq<Watcher>, key: string, value: string)
    ensures Notices(a + b, key, value) == Notices(a, key, value) + Notices(b, key, value)
  {
    if b == [] {
      assert a + b == a;
    } else {
      var init, last := b[..|b| - 1], b[|b| - 1];
      assert (a + b)[..|a + b| - 1] == a + init;
      NoticesAppend(a, init, key, value);
    }
  }

  /** A configuration object. `origin` names the factory that built it. */
  class Config {
    const origin: nat
    var values: map<string, string>
    var watchers: seq<Watcher>
    /** The callback invocations so far, oldest first. */
    var notified: seq<Notice>

    constructor(origin: nat)
      ensures this.origin == origin
      ensures values == map[] && watchers == [] && notified == []
    {
      this.origin := origin;
      values := map[];
      watchers := [];
      notified := [];
    }

    /** The value stored under `key`, if any. */
    function Get(key: string): (r: Option<string>)
      reads this
      ensures r.Some? <==> key in values
      ensures r.Some? ==> r.value == values[key]
    {
      if key in values then Some(values[key]) else None
    }

    /** Registers callback `id` on `key`. */
    method Watch(key: string, id: nat)
      modifies this
      ensures watchers == old(watchers) + [Watcher(key, id)]
      ensures values == old(values) && notified == old(notified)
    {
      watchers := watchers + [Watcher(key, id)];
    }

    /** Stores `value` under `key`, then calls every watcher of `key`. */
    method Set(key: string, value: string)
      modifies this
      ensures values == old(values)[key := value]
      ensures watchers == old(watchers)
      ensures notified == old(notified) + Notices(watchers, key, value)
      ensures Get(key) == Some(value)
      ensures forall k :: k != key ==> Get(k) == old(Get(k))
    {
      values := values[key := value];
      var i := 0;
      while i < |watchers|
        invariant 0 <= i <= |watchers|
        invariant values == old(values)[key := value] && watchers == old(watchers)
        invariant notified == old(notified) + Notices(watchers[..i], key, value)
      {
        var w := watchers[i];
        assert watchers[..i + 1][..i] == watchers[..i];
        if w.key == key {
          notified := notified + [Notice(w.id, value)];
        }
        i := i + 1;
      }
      assert watchers[..i] == watchers;
    }
  }

  /** The manager of named configuration objects. `factories` maps a name
      to the factory registered for it; `instances` caches what they
      built. */
  class ConfigManager {
    var defaultName: string
    var factories: map<string, nat>
    var instances: map<string, Config>

    ghost predicate Valid()
      reads this
    {
      && instances.Keys <= factories.Keys
      && forall k :: k in instances ==> instances[k].origin == factories[k]
    }

    constructor()
      ensures Valid()
      ensures defaultName == "" && factories == map[] && instances == map[]
    {
      defaultName := "";
      factories := map[];
      instances := map[];
    }

    /** The name an absent or empty name stands for. */
    function DefaultName(): (r: string)
      reads this
      ensures r != ""
      ensures defaultName != "" ==> r == defaultName
      ensures defaultName == "" ==> r == FallbackName
    {
      Resolve(defaultName, None)
    }

    method SetDefault(name: string)
      modifies this
      ensures defaultName == name
      ensures factories == old(factories) && instances == old(instances)
    {
      defaultName := name;
    }

    /** Registers `factory` under `name` (the default name when absent or
        empty); a name may have one factory only. */
    method Extend(factory: nat, name: Option<string>) returns (r: Status)
      requires Valid()
      modifies this
      ensures Valid()
      ensures r == Ok <==> Resolve(defaultName, name) !in old(factories)
      ensures r == Ok ==> factories == old(factories)[Resolve(defaultName, name) := factory]
      ensures r != Ok ==> r == Fail(Runtime) && factories == old(factories)
      ensures defaultName == old(defaultName) && instances == old(instances)
    {
      var n := Resolve(defaultName, name);
      if n in factories {
        return Fail(Runtime);
      }
      factories := factories[n := factory];
      r := Ok;
    }

    /** The object for `name` (the default name when absent or empty):
        the cached one, else a new one from the name's factory, which is
        then cached. Without a factory the lookup fails. */
    method Get(name: Option<string>) returns (r: Result<Config>)
      requires Valid()
      modifies this
      ensures Valid()
      ensures defaultName == old(defaultName) && factories == old(factories)
      ensures var n := Resolve(defaultName, name);
        && (n in old(instances) ==> r == Success(old(instances)[n]) && instances == old(instances))
        && (n !in old(instances) && n !in factories
            ==> r == Failure(Runtime) && instances == old(instances))
        && (n !in old(instances) && n in factories
            ==> && r.Success? && fresh(r.value)
                && r.value.origin == factories[n]
                && r.value.values == map[] && r.value.watchers == [] && r.value.notified == []
                && instances == old(instances)[n := r.value])
    {
      var n := Resolve(defaultName, name);
      if n in instances {
        return Success(instances[n]);
      }
      if n !in factories {
        return Failure(Runtime);
      }
      var c := new Config(factories[n]);
      instances := instances[n := c];
      r := Success(c);
    }
  }

  /** An empty default name falls back to "default", so a lookup with no
      name and a lookup of "default" resolve to the same name; a non-empty
      default name makes them differ. */
  lemma DefaultResolution(defaultName: string)
    ensures defaultName == "" ==> Resolve(defaultName, None) == Resolve(defaultName, Some(FallbackName))
    ensures defaultName != "" && defaultName != FallbackName
      ==> Resolve(defaultName, None) != Resolve(defaultName, Some(FallbackName))
    ensures Resolve(defaultName, Some("")) == Resolve(defaultName, None)
  {
  }

  /** The manager as the configuration provider sets it up: a factory for
      "default" (origin 0). */
  method NewManager() returns (m: ConfigManager)
    ensures fresh(m) && m.Valid()
    ensures m.defaultName == "" && m.factories == map[FallbackName := 0] && m.instances == map[]
  {
    m := new ConfigManager();
    var s := m.Extend(0, Some(FallbackName));
  }

  /** With default name "catlib" and a factory for it, the default object
      and the "default" object are both built and are distinct; once the
      default name is emptied, the default object is the cached "default"
      one. */
  method DefaultNameScenario() returns (a: Config, b: Config, c: Config)
    ensures a != b
    ensures c == b
    ensures a.origin == 1 && b.origin == 0
  {
    var m := NewManager();
    m.SetDefault("catlib");
    var s := m.Extend(1, None);
    var ra := m.Get(None);
    var rb := m.Get(Some(FallbackName));
    a, b := ra.value, rb.value;
    var again := m.Get(None);
    var indexed := m.Get(Some(FallbackName));
    assert again.value == a && indexed.value == b;
    m.SetDefault("");
    var rc := m.Get(None);
    c := rc.value;
  }

  /** A watcher on "watch" receives "123" when "watch" is set, and setting
      "nowatch" does not call it; "watch" then reads back as "123". */
  method WatchScenario() returns (seen: seq<Notice>, read: Option<string>)
    ensures seen == [Notice(7, "123")]
    ensures read == Some("123")
  {
    var m := NewManager();
    m.SetDefault("catlib");
    var s := m.Extend(1, None);
    var r := m.Get(None);
    var config := r.value;
    config.Watch("watch", 7);
    var ws := [Watcher("watch", 7)];
    assert ws[..0] == [];
    assert Notices(ws, "watch", "123") == [Notice(7, "123")];
    assert Notices(ws, "nowatch", "333") == [];
    config.Set("watch", "123");
    config.Set("nowatch", "333");
    seen := config.notified;
    read := config.Get("watch");
  }
}
