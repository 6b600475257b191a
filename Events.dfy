/** The event dispatcher: listeners registered under an event name, kept
    in ascending priority (registration order on ties), fired in that
    order by Trigger. A listener registered with a count answers that many
    triggers and is then dropped; count 0 means it never expires. */
module Events {
  import Ordering
  import opened Wrappers

  /** Payloads and listener results. */
  datatype Value = Null | Text(s: string) | Number(n: int) | Object(id: nat) | Array(items: seq<Value>)

  /** What a listener does with a payload. */
  type Handler = Value -> Value

  /** A registered listener; `life` is the number of triggers it still
      answers, 0 for no limit. */
  datatype Listener = Listener(id: nat, priority: int, life: nat)

  /** What On hands back, to identify the registration. */
  datatype Handle = Handle(name: string, id: nat)

  /** One invocation of a listener, with the payload it received. */
  datatype Call = Call(id: nat, payload: Value)

  function PriorityOf(l: Listener): int { l.priority }

  /** No two listeners of `ls` share an id. */
  ghost predicate UniqueIds(ls: seq<Listener>) {
    forall i, j :: 0 <= i < j < |ls| ==> ls[i].id != ls[j].id
  }

  /** The listener `l` answering `payload`. */
  function Respond(handlers: map<nat, Handler>, l: Listener, payload: Value): Value {
    if l.id in handlers then handlers[l.id](payload) else Null
  }

  /** What is left of `l` after it answered once. */
  function SpendOne(l: Listener): seq<Listener> {
    if l.life == 0 then [l] else if l.life == 1 then [] else [l.(life := l.life - 1)]
  }

  /** What is left of `ls` after each of them answered once. */
  function Spend(ls: seq<Listener>): seq<Listener> {
    if ls == [] then [] else Spend(ls[..|ls| - 1]) + SpendOne(ls[|ls| - 1])
  }

  /** The answers of `ls` to `payload`, in order. */
  function Responses(handlers: map<nat, Handler>, ls: seq<Listener>, payload: Value): seq<Value> {
    if ls == [] then []
    else Responses(handlers, ls[..|ls| - 1], payload) + [Respond(handlers, ls[|ls| - 1], payload)]
  }

  /** The invocations of `ls` with `payload`, in order. */
  function Calls(ls: seq<Listener>, payload: Value): seq<Call> {
    if ls == [] then [] else Calls(ls[..|ls| - 1], payload) + [Call(ls[|ls| - 1].id, payload)]
  }

  /** Index of the first listener whose answer is not null. */
  function FirstAnswer(handlers: map<nat, Handler>, ls: seq<Listener>, payload: Value): (r: Option<nat>)
    ensures r.Some? ==> r.value < |ls| && Respond(handlers, ls[r.value], payload) != Null
    ensures r.Some? ==> forall j :: 0 <= j < r.value ==> Respond(handlers, ls[j], payload) == Null
    ensures r.None? ==> forall j :: 0 <= j < |ls| ==> Respond(handlers, ls[j], payload) == Null
  {
    if ls == [] then None
    else if Respond(handlers, ls[0], payload) != Null then Some(0)
    else match FirstAnswer(handlers, ls[1..], payload)
      case None => None
      case Some(i) => Some(i + 1)
  }

  /** How many of `ls` a trigger invokes: with `halt` it stops after the
      first non-null answer, otherwise every listener is invoked. */
  function Invoked(handlers: map<nat, Handler>, ls: seq<Listener>, payload: Value, halt: bool): (n: nat)
    ensures n <= |ls|
  {
    if halt && FirstAnswer(handlers, ls, payload).Some? then FirstAnswer(handlers, ls, payload).value + 1
    else |ls|
  }

  /** The result of a trigger: with `halt` the first non-null answer (null
      if there is none), otherwise the array of all answers. */
  function Outcome(handlers: map<nat, Handler>, ls: seq<Listener>, payload: Value, halt: bool): (r: Value)
    ensures !halt ==> r.Array?
    ensures halt ==> (r == Null <==> forall j :: 0 <= j < |ls| ==> Respond(handlers, ls[j], payload) == Null)
  {
    if !halt then Array(Responses(handlers, ls, payload))
    else match FirstAnswer(handlers, ls, payload)
      case None => Null
      case Some(i) => Respond(handlers, ls[i], payload)
  }

  class Dispatcher {
    /** The listeners of each event name, in the order they fire. */
    var listeners: map<string, seq<Listener>>
    var handlers: map<nat, Handler>
    var nextId: nat
    /** Every listener invocation so far, in order. */
    var calls: seq<Call>

    /** Each event's listeners are in priority order, with distinct ids,
        all of them handed out already. */
    ghost predicate Valid()
      reads this
    {
      forall name | name in listeners ::
        Ordering.SortedBy(listeners[name], PriorityOf) && UniqueIds(listeners[name]) &&
        forall m :: m in listeners[name] ==> m.id < nextId
    }

    function ListenersOf(name: string): seq<Listener>
      reads this
    {
      if name in listeners then listeners[name] else []
    }

    constructor ()
      ensures Valid() && listeners == map[] && calls == []
    {
      listeners := map[];
      handlers := map[];
      nextId := 0;
      calls := [];
    }

    /** Registers `handler` for `name`: it fires after every listener of
        lower or equal priority and before those of higher priority, and
        answers `life` triggers (0: all of them). */
    method On(name: string, handler: Handler, priority: int, life: nat) returns (h: Handle)
      requires Valid()
      modifies this
      ensures Valid()
      ensures h == Handle(name, old(nextId)) && nextId == old(nextId) + 1
      ensures handlers == old(handlers)[h.id := handler]
      ensures listeners == old(listeners)[name :=
                Ordering.Insert(Listener(h.id, priority, life), old(ListenersOf(name)), PriorityOf)]
      ensures calls == old(calls)
    {
      var l := Listener(nextId, priority, life);
      Ordering.InsertSorted(l, ListenersOf(name), PriorityOf);
      InsertFresh(l, ListenersOf(name));
      listeners := listeners[name := Ordering.Insert(l, ListenersOf(name), PriorityOf)];
      handlers := handlers[nextId := handler];
      h := Handle(name, nextId);
      nextId := nextId + 1;
    }

    /** Fires the listeners of `name` in order with `payload`. Every
        invoked listener spends one of its answers. */
    method Trigger(name: string, payload: Value, halt: bool) returns (r: Value)
      requires Valid()
      modifies this
      ensures Valid()
      ensures r == Outcome(handlers, old(ListenersOf(name)), payload, halt)
      ensures var ls := old(ListenersOf(name));
              calls == old(calls) + Calls(ls[..Invoked(handlers, ls, payload, halt)], payload)
      ensures var ls := old(ListenersOf(name));
              var n := Invoked(handlers, ls, payload, halt);
              listeners == if name in old(listeners)
                           then old(listeners)[name := Spend(ls[..n]) + ls[n..]]
                           else old(listeners)
      ensures var ls := old(ListenersOf(name));
              var n := Invoked(handlers, ls, payload, halt);
              forall k :: 0 <= k < n && ls[k].life == 1 ==>
                forall m :: m in ListenersOf(name) ==> m.id != ls[k].id
      ensures handlers == old(handlers) && nextId == old(nextId)
    {
      var ls := ListenersOf(name);
      var n, responses, kept, first := Invoke(handlers, ls, payload, halt);
      calls := calls + Calls(ls[..n], payload);
      if name in listeners {
        Remaining(ls, n, nextId);
        listeners := listeners[name := kept + ls[n..]];
      }
      if halt {
        r := first;
      } else {
        assert ls[..n] == ls;
        r := Array(responses);
      }
    }
  }

  /** Invokes `ls` in order with `payload`, stopping after the first
      non-null answer when `halt` is set. Returns how many were invoked,
      their answers, what is left of them, and the first non-null answer
      (null if there is none). */
  method Invoke(handlers: map<nat, Handler>, ls: seq<Listener>, payload: Value, halt: bool)
    returns (n: nat, responses: seq<Value>, kept: seq<Listener>, first: Value)
    ensures n == Invoked(handlers, ls, payload, halt)
    ensures responses == Responses(handlers, ls[..n], payload)
    ensures kept == Spend(ls[..n])
    ensures halt ==> first == Outcome(handlers, ls, payload, halt)
  {
    responses, kept, n := [], [], 0;
    while n < |ls|
      invariant 0 <= n <= |ls|
      invariant responses == Responses(handlers, ls[..n], payload)
      invariant kept == Spend(ls[..n])
      invariant halt ==> forall j :: 0 <= j < n ==> Respond(handlers, ls[j], payload) == Null
    {
      var response := Respond(handlers, ls[n], payload);
      PrefixStep(handlers, ls, payload, n);
      responses := responses + [response];
      kept := kept + SpendOne(ls[n]);
      if halt && response != Null {
        FirstAnswerAt(handlers, ls, payload, n);
        n, first := n + 1, response;
        return;
      }
      n := n + 1;
    }
    assert ls[..n] == ls;
    first := Null;
  }

  /** Invoking one listener more extends the answers and what is left by
      that listener's share. */
  lemma PrefixStep(handlers: map<nat, Handler>, ls: seq<Listener>, payload: Value, n: nat)
    requires n < |ls|
    ensures Responses(handlers, ls[..n + 1], payload) == Responses(handlers, ls[..n], payload) + [Respond(handlers, ls[n], payload)]
    ensures Spend(ls[..n + 1]) == Spend(ls[..n]) + SpendOne(ls[n])
  {
    assert ls[..n + 1][..n] == ls[..n];
  }

  lemma FirstAnswerAt(handlers: map<nat, Handler>, ls: seq<Listener>, payload: Value, i: nat)
    requires i < |ls| && Respond(handlers, ls[i], payload) != Null
    requires forall j :: 0 <= j < i ==> Respond(handlers, ls[j], payload) == Null
    ensures FirstAnswer(handlers, ls, payload) == Some(i)
  {
  }

  /** Spending keeps priorities and order, and never raises a priority. */
  lemma {:induction false} SpendSorted(ls: seq<Listener>, hi: int)
    requires Ordering.SortedBy(ls, PriorityOf)
    requires forall j :: 0 <= j < |ls| ==> ls[j].priority <= hi
    ensures Ordering.SortedBy(Spend(ls), PriorityOf)
    ensures forall j :: 0 <= j < |Spend(ls)| ==> Spend(ls)[j].priority <= hi
  {
    if ls != [] {
      var last := ls[|ls| - 1];
      SpendSorted(ls[..|ls| - 1], last.priority);
    }
  }

  /** What a trigger leaves behind stays in priority order. */
  lemma SpendKeepsOrder(ls: seq<Listener>, n: nat)
    requires n <= |ls| && Ordering.SortedBy(ls, PriorityOf)
    ensures Ordering.SortedBy(Spend(ls[..n]) + ls[n..], PriorityOf)
  {
    var hi := if n < |ls| then ls[n].priority else if n > 0 then ls[n - 1].priority else 0;
    SpendSorted(ls[..n], hi);
  }

  /** Every invocation carries the trigger's payload unchanged, and the
      listeners are invoked in their order. */
  lemma {:induction false} CallsCarryPayload(ls: seq<Listener>, payload: Value)
    ensures |Calls(ls, payload)| == |ls|
    ensures forall k :: 0 <= k < |ls| ==> Calls(ls, payload)[k] == Call(ls[k].id, payload)
  {
    if ls != [] {
      CallsCarryPayload(ls[..|ls| - 1], payload);
    }
  }

  /** Every listener left after a trigger is one that was there, with one
      answer fewer unless its answers are unlimited. */
  lemma {:induction false} SpendSurvivor(ls: seq<Listener>, m: Listener)
    requires m in Spend(ls)
    ensures (m.life == 0 && m in ls) || (m.life > 0 && m.(life := m.life + 1) in ls)
  {
    var init, last := ls[..|ls| - 1], ls[|ls| - 1];
    assert ls == init + [last];
    if m in Spend(init) {
      SpendSurvivor(init, m);
    } else {
      assert m in SpendOne(last);
    }
  }

  /** Expiry: a listener with one answer left is gone after the trigger. */
  lemma {:induction false} SpendExpires(ls: seq<Listener>, k: nat)
    requires UniqueIds(ls)
    requires k < |ls| && ls[k].life == 1
    ensures forall m :: m in Spend(ls) ==> m.id != ls[k].id
  {
    var init, last := ls[..|ls| - 1], ls[|ls| - 1];
    forall m | m in Spend(ls) ensures m.id != ls[k].id {
      if m in Spend(init) {
        if k < |ls| - 1 {
          SpendExpires(init, k);
        } else {
          SpendSurvivor(init, m);
          var o := if m.life == 0 then m else m.(life := m.life + 1);
          assert o in init;
          var i :| 0 <= i < |init| && init[i] == o;
          assert ls[i] == o;
        }
      } else {
        assert m in SpendOne(last);
      }
    }
  }

  /** What a trigger that invoked the first `n` listeners of a valid list
      leaves behind is valid again, and holds no listener that was invoked
      on its last answer. */
  lemma Remaining(ls: seq<Listener>, n: nat, bound: nat)
    requires n <= |ls| && Ordering.SortedBy(ls, PriorityOf) && UniqueIds(ls)
    requires forall m :: m in ls ==> m.id < bound
    ensures Ordering.SortedBy(Spend(ls[..n]) + ls[n..], PriorityOf)
    ensures UniqueIds(Spend(ls[..n]) + ls[n..])
    ensures forall m :: m in Spend(ls[..n]) + ls[n..] ==> m.id < bound
    ensures forall k :: 0 <= k < n && ls[k].life == 1 ==>
              forall m :: m in Spend(ls[..n]) + ls[n..] ==> m.id != ls[k].id
  {
    SpendKeepsOrder(ls, n);
    assert ls[..n] + ls[n..] == ls;
    SpendUnique(ls[..n], ls[n..]);
    SpendKeepsIds(ls, n);
    forall k | 0 <= k < n && ls[k].life == 1
      ensures forall m :: m in Spend(ls[..n]) + ls[n..] ==> m.id != ls[k].id
    {
      TriggerExpires(ls, n, k);
    }
  }

  /** After a trigger that invoked the first `n` listeners, an invoked
      listener that had one answer left is gone: no listener with its id
      remains. */
  lemma TriggerExpires(ls: seq<Listener>, n: nat, k: nat)
    requires UniqueIds(ls) && n <= |ls| && k < n && ls[k].life == 1
    ensures forall m :: m in Spend(ls[..n]) + ls[n..] ==> m.id != ls[k].id
  {
    SpendExpires(ls[..n], k);
    forall m | m in ls[n..] ensures m.id != ls[k].id {
      var j :| 0 <= j < |ls[n..]| && ls[n..][j] == m;
      assert ls[n + j] == m;
    }
  }

  /** Every listener left after a trigger has the id of one that was there. */
  lemma SpendKeepsIds(ls: seq<Listener>, n: nat)
    requires n <= |ls|
    ensures forall m :: m in Spend(ls[..n]) + ls[n..] ==> exists l :: l in ls && l.id == m.id
  {
    forall m | m in Spend(ls[..n]) + ls[n..] ensures exists l :: l in ls && l.id == m.id {
      if m in Spend(ls[..n]) {
        SpendSurvivor(ls[..n], m);
        var o := if m.life == 0 then m else m.(life := m.life + 1);
        assert o in ls[..n];
        var j :| 0 <= j < n && ls[..n][j] == o;
        assert ls[j] == o;
      } else {
        var j :| 0 <= j < |ls[n..]| && ls[n..][j] == m;
        assert ls[n + j] == m;
      }
    }
  }

  /** Inserting a listener whose id is above every id present keeps the
      ids distinct, and adds no listener but that one. */
  lemma {:induction false} InsertFresh(x: Listener, s: seq<Listener>)
    requires UniqueIds(s)
    requires forall m :: m in s ==> m.id < x.id
    ensures UniqueIds(Ordering.Insert(x, s, PriorityOf))
    ensures forall m :: m in Ordering.Insert(x, s, PriorityOf) ==> m == x || m in s
  {
    if s != [] && PriorityOf(x) >= PriorityOf(s[0]) {
      var t := s[1..];
      InsertFresh(x, t);
      var r := Ordering.Insert(x, t, PriorityOf);
      assert Ordering.Insert(x, s, PriorityOf) == [s[0]] + r;
      forall j | 0 <= j < |r| ensures r[j].id != s[0].id {
        assert r[j] in r;
        if r[j] != x {
          var k :| 0 <= k < |t| && t[k] == r[j];
          assert s[k + 1] == r[j];
        }
      }
      forall m | m in [s[0]] + r ensures m == x || m in s {
        if m != s[0] {
          assert m in r;
        }
      }
    }
  }

  /** Spending a run of listeners keeps their ids distinct, also from the
      listeners behind them. */
  lemma {:induction false} SpendUnique(ls: seq<Listener>, rest: seq<Listener>)
    requires UniqueIds(ls + rest)
    ensures UniqueIds(Spend(ls) + rest)
  {
    if ls != [] {
      var init, last := ls[..|ls| - 1], ls[|ls| - 1];
      assert init + ([last] + rest) == ls + rest;
      SpendUnique(init, [last] + rest);
      assert Spend(init) + ([last] + rest) == Spend(init) + [last] + rest;
      SameIdInPlace(Spend(init), last, SpendOne(last), rest);
      assert Spend(ls) + rest == Spend(init) + SpendOne(last) + rest;
    }
  }

  /** Replacing one listener by at most one listener with its id keeps the
      ids distinct. */
  lemma SameIdInPlace(a: seq<Listener>, l: Listener, t: seq<Listener>, b: seq<Listener>)
    requires UniqueIds(a + [l] + b)
    requires |t| <= 1 && forall m :: m in t ==> m.id == l.id
    ensures UniqueIds(a + t + b)
  {
    var u, v := a + t + b, a + [l] + b;
    if |t| == 1 {
      assert t[0] in t;
      forall i | 0 <= i < |u| ensures u[i].id == v[i].id {
        if i == |a| {
          assert u[i] == t[0];
        }
      }
    } else {
      forall i | 0 <= i < |u| ensures u[i] == v[if i < |a| then i else i + 1] {
      }
    }
  }

  /** A trigger with one listener and `halt` returns that listener's
      answer as it is, not wrapped in an array. */
  lemma SingleListenerHalt(handlers: map<nat, Handler>, l: Listener, payload: Value)
    ensures Outcome(handlers, [l], payload, true) == Respond(handlers, l, payload)
    ensures Invoked(handlers, [l], payload, true) == 1
  {
    if Respond(handlers, l, payload) != Null {
      FirstAnswerAt(handlers, [l], payload, 0);
    }
  }

  /** Without `halt` the result holds one answer per listener, in order. */
  lemma {:induction false} AllAnswers(handlers: map<nat, Handler>, ls: seq<Listener>, payload: Value)
    ensures Outcome(handlers, ls, payload, false).Array?
    ensures |Outcome(handlers, ls, payload, false).items| == |ls|
    ensures forall k :: 0 <= k < |ls| ==>
              Outcome(handlers, ls, payload, false).items[k] == Respond(handlers, ls[k], payload)
  {
    if ls != [] {
      AllAnswers(handlers, ls[..|ls| - 1], payload);
    }
  }

  /** A listener registered for one trigger answers the first and is gone
      for the second; the payload reaches it unchanged. */
  method OneShotListener(payload: Value) returns (id: nat, calls: seq<Call>, second: Value)
    ensures calls == [Call(id, payload)]
    ensures second == Array([])
  {
    var d := new Dispatcher();
    var h := d.On("event", _ => Null, 0, 1);
    ghost var l := Listener(h.id, 0, 1);
    assert d.ListenersOf("event") == [l];
    assert [l][..1] == [l] && [l][1..] == [] && Spend([l]) == [];
    var first := d.Trigger("event", payload, false);
    assert d.listeners["event"] == [];
    second := d.Trigger("event", payload, false);
    id, calls := h.id, d.calls;
  }
}
