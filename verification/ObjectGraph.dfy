// The observer tables of Object. They are keyed by raw pointers to observers; two hooks on the
// DELETE signal, installed by every connection, are meant to take a deleted object out of every
// other table. The laws are stated on snapshots of the tables of all live objects.
module ObjectGraph {

  const DELETE: int := 0x00ff
  const UNDEFINED_OBJECT_NAME := "@undefined"

  // A user's action, which does not touch the tables, or a hook: `subject` is to forget `observer`.
  datatype Action = Plain(id: nat) | Drop(subject: Object, observer: Object)

  // connections_: by signal, then by observer, the actions in the order of their registration.
  type Table = map<int, map<Object?, seq<Action>>>

  // The tables of all live objects.
  type Graph = map<Object, Table>

  // ---------------------------------------------------------------- single tables

  predicate Has(t: Table, signal: int, observer: Object?) {
    signal in t && observer in t[signal]
  }

  function Register(t: Table, signal: int, observer: Object?, action: Action): Table {
    if signal !in t then t[signal := map[observer := [action]]]
    else if observer !in t[signal] then t[signal := t[signal][observer := [action]]]
    else t[signal := t[signal][observer := t[signal][observer] + [action]]]
  }

  function Erase(t: Table, signal: int, observer: Object?): Table {
    if signal in t then t[signal := t[signal] - {observer}] else t
  }

  // disconnect(Object*), for a set of observers.
  function Without(t: Table, gone: set<Object?>): Table {
    map signal | signal in t :: t[signal] - gone
  }

  lemma WithoutTwice(t: Table, a: set<Object?>, b: set<Object?>)
    ensures Without(Without(t, a), b) == Without(t, a + b)
  {
    forall s | s in t ensures t[s] - a - b == t[s] - (a + b) {
    }
  }

  // ---------------------------------------------------------------- the invariant

  predicate AllPlain(actions: seq<Action>) {
    forall i :: 0 <= i < |actions| ==> actions[i].Plain?
  }

  // At least one action makes `y` forget `x`, and the others are a user's.
  predicate Hooks(actions: seq<Action>, y: Object, x: Object) {
    Drop(y, x) in actions && forall i :: 0 <= i < |actions| ==> actions[i].Plain? || actions[i] == Drop(y, x)
  }

  // What the table of `x` may hold under `signal` for `y`: hooks for others under DELETE, and a
  // user's actions.
  predicate EntryOk(x: Object, t: Table, signal: int, y: Object?, live: set<Object>)
    requires Has(t, signal, y)
  {
    if y == null || y == x then (y != null ==> y in live) && AllPlain(t[signal][y])
    else
      && y in live && Has(t, DELETE, y)
      && if signal == DELETE then Hooks(t[signal][y], y, x) else AllPlain(t[signal][y])
  }

  ghost predicate TableOk(x: Object, t: Table, live: set<Object>) {
    forall signal, y :: signal in t && y in t[signal] ==> EntryOk(x, t, signal, y, live)
  }

  // No table mentions a deleted object, hooks between two objects are mutual, and whoever observes
  // another object through a signal is hooked to its deletion.
  ghost predicate Sound(g: Graph) {
    && (forall x :: x in g ==> TableOk(x, g[x], g.Keys))
    && (forall x, y :: x in g && y in g && x != y && Has(g[x], DELETE, y) ==> Has(g[y], DELETE, x))
  }

  // ---------------------------------------------------------------- operations on snapshots

  // connect: on a signal other than DELETE with hooks for both, if they are two.
  ghost function Connected(g: Graph, x: Object, signal: int, y: Object?, action: Action): Graph
    requires x in g && (y != null ==> y in g)
  {
    var t := Register(g[x], signal, y, action);
    if y == null || y == x || signal == DELETE then g[x := t]
    else g[x := Register(t, DELETE, y, Drop(y, x))][y := Register(g[y], DELETE, x, Drop(x, y))]
  }

  ghost function Removed(g: Graph, gone: set<Object>): Graph {
    map x | x in g && x !in gone :: Without(g[x], gone)
  }

  lemma RegisterIs(t: Table, signal: int, y: Object?, action: Action, s: int, z: Object?)
    ensures Has(Register(t, signal, y, action), s, z) <==> Has(t, s, z) || (s == signal && z == y)
    ensures Has(t, s, z) && !(s == signal && z == y) ==> Register(t, signal, y, action)[s][z] == t[s][z]
    ensures Register(t, signal, y, action)[signal][y] == (if Has(t, signal, y) then t[signal][y] else []) + [action]
  {
  }

  lemma RegisterPlainKeeps(x: Object, t: Table, signal: int, y: Object?, id: nat, live: set<Object>)
    requires TableOk(x, t, live) && (y != null ==> y in live) && x in live
    requires y == null || y == x || Has(t, DELETE, y)
    ensures TableOk(x, Register(t, signal, y, Plain(id)), live)
  {
    var r := Register(t, signal, y, Plain(id));
    forall s, z | s in r && z in r[s] ensures EntryOk(x, r, s, z, live) {
      RegisterIs(t, signal, y, Plain(id), s, z);
      RegisterIs(t, signal, y, Plain(id), DELETE, z);
      assert Has(t, s, z) ==> EntryOk(x, t, s, z, live);
    }
  }

  lemma RegisterHookKeeps(x: Object, t: Table, y: Object, live: set<Object>)
    requires TableOk(x, t, live) && y != x && y in live
    ensures TableOk(x, Register(t, DELETE, y, Drop(y, x)), live)
  {
    var r := Register(t, DELETE, y, Drop(y, x));
    forall s, z | s in r && z in r[s] ensures EntryOk(x, r, s, z, live) {
      RegisterIs(t, DELETE, y, Drop(y, x), s, z);
      RegisterIs(t, DELETE, y, Drop(y, x), DELETE, z);
      assert Has(t, s, z) ==> EntryOk(x, t, s, z, live);
    }
  }

  // The order of registration within connect does not matter to the table.
  lemma RegisterCommutes(t: Table, signal: int, y: Object?, a: Action, b: Action)
    requires signal != DELETE
    ensures Register(Register(t, signal, y, a), DELETE, y, b) == Register(Register(t, DELETE, y, b), signal, y, a)
  {
  }

  // A user may connect to any signal but DELETE; to that one on behalf of itself or of nobody, or
  // of an object that is already hooked.
  predicate MayConnect(g: Graph, x: Object, signal: int, y: Object?)
    requires x in g
  {
    signal != DELETE || y == null || y == x || Has(g[x], DELETE, y)
  }

  lemma ConnectKeepsSound(g: Graph, x: Object, signal: int, y: Object?, id: nat)
    requires Sound(g) && x in g && (y != null ==> y in g)
    ensures Sound(Connected(g, x, signal, y, Plain(id))) <==> MayConnect(g, x, signal, y)
  {
    if !MayConnect(g, x, signal, y) {
      UnhookedConnection(g, x, y, id);
    } else if y == null || y == x || signal == DELETE {
      PlainConnectionKeeps(g, x, signal, y, id);
    } else {
      hide EntryOk, Register;
      RegisterCommutes(g[x], signal, y, Plain(id), Drop(y, x));
      RegisterHookKeeps(x, g[x], y, g.Keys);
      RegisterIs(g[x], DELETE, y, Drop(y, x), DELETE, y);
      RegisterPlainKeeps(x, Register(g[x], DELETE, y, Drop(y, x)), signal, y, id, g.Keys);
      RegisterHookKeeps(y, g[y], x, g.Keys);
      HooksStayMutual(g, x, signal, y, id);
      assert Connected(g, x, signal, y, Plain(id)).Keys == g.Keys;
    }
  }

  // The table of `x` then mentions `y` with nothing to take it out when `y` is deleted.
  lemma UnhookedConnection(g: Graph, x: Object, y: Object?, id: nat)
    requires x in g && y != null && y != x && y in g && !Has(g[x], DELETE, y)
    ensures !Sound(Connected(g, x, DELETE, y, Plain(id)))
  {
    var r := Connected(g, x, DELETE, y, Plain(id));
    RegisterIs(g[x], DELETE, y, Plain(id), DELETE, y);
    assert r[x][DELETE][y] == [Plain(id)];
    assert !EntryOk(x, r[x], DELETE, y, r.Keys);
  }

  lemma PlainConnectionKeeps(g: Graph, x: Object, signal: int, y: Object?, id: nat)
    requires Sound(g) && x in g && (y != null ==> y in g)
    requires y == null || y == x || (signal == DELETE && Has(g[x], DELETE, y))
    ensures Sound(Connected(g, x, signal, y, Plain(id)))
  {
    var r := Connected(g, x, signal, y, Plain(id));
    assert r.Keys == g.Keys;
    RegisterPlainKeeps(x, g[x], signal, y, id, g.Keys);
    forall a, b | a in r && b in r && a != b && Has(r[a], DELETE, b) ensures Has(r[b], DELETE, a) {
      RegisterIs(g[x], signal, y, Plain(id), DELETE, if a == x then b else a);
    }
  }

  lemma HooksStayMutual(g: Graph, x: Object, signal: int, y: Object, id: nat)
    requires Sound(g) && x in g && y in g && x != y && signal != DELETE
    ensures var r := Connected(g, x, signal, y, Plain(id));
            forall a, b :: a in r && b in r && a != b && Has(r[a], DELETE, b) ==> Has(r[b], DELETE, a)
  {
    var r := Connected(g, x, signal, y, Plain(id));
    var t := Register(g[x], signal, y, Plain(id));
    forall a, b | a in r && b in r && a != b && Has(r[a], DELETE, b) ensures Has(r[b], DELETE, a) {
      RegisterIs(g[x], signal, y, Plain(id), DELETE, a);
      RegisterIs(g[x], signal, y, Plain(id), DELETE, b);
      RegisterIs(t, DELETE, y, Drop(y, x), DELETE, a);
      RegisterIs(t, DELETE, y, Drop(y, x), DELETE, b);
      RegisterIs(g[y], DELETE, x, Drop(x, y), DELETE, a);
      RegisterIs(g[y], DELETE, x, Drop(x, y), DELETE, b);
    }
  }

  lemma EraseKeepsTable(x: Object, t: Table, signal: int, y: Object?, live: set<Object>)
    requires TableOk(x, t, live)
    requires signal != DELETE || y == null || y == x || !Has(t, DELETE, y)
    ensures TableOk(x, Erase(t, signal, y), live)
    ensures forall z: Object :: z != x ==> (Has(Erase(t, signal, y), DELETE, z) <==> Has(t, DELETE, z))
  {
    var r := Erase(t, signal, y);
    forall s, z | s in r && z in r[s] ensures EntryOk(x, r, s, z, live) {
      assert EntryOk(x, t, s, z, live);
    }
  }

  // disconnect(int, Object*) by a user must spare the hooks.
  lemma EraseKeepsSound(g: Graph, x: Object, signal: int, y: Object?)
    requires Sound(g) && x in g
    ensures Sound(g[x := Erase(g[x], signal, y)])
            <==> signal != DELETE || y == null || y == x || !Has(g[x], DELETE, y)
  {
    var r := g[x := Erase(g[x], signal, y)];
    assert r.Keys == g.Keys;
    if signal != DELETE || y == null || y == x || !Has(g[x], DELETE, y) {
      EraseKeepsTable(x, g[x], signal, y, g.Keys);
      hide TableOk, Erase, Has;
    } else {
      LosingAHook(g, x, y, r[x]);
    }
  }

  // A hook lost on one side only leaves the other one dangling.
  lemma LosingAHook(g: Graph, x: Object, y: Object?, t: Table)
    requires Sound(g) && x in g && y != null && y != x && Has(g[x], DELETE, y) && !Has(t, DELETE, y)
    ensures !Sound(g[x := t])
  {
    assert EntryOk(x, g[x], DELETE, y, g.Keys);
    var r := g[x := t];
    assert y in r && Has(r[y], DELETE, x);
  }

  // disconnect(Object*) by a user takes the hook along, if there is one.
  lemma ForgettingKeepsSound(g: Graph, x: Object, y: Object?)
    requires Sound(g) && x in g
    ensures Sound(g[x := Without(g[x], {y})]) <==> y == null || y == x || !Has(g[x], DELETE, y)
  {
    var t := Without(g[x], {y});
    if y == null || y == x || !Has(g[x], DELETE, y) {
      var r := g[x := t];
      assert r.Keys == g.Keys;
      forall s, z | s in t && z in t[s] ensures EntryOk(x, t, s, z, g.Keys) {
        assert EntryOk(x, g[x], s, z, g.Keys);
      }
      hide TableOk;
    } else {
      LosingAHook(g, x, y, t);
    }
  }

  // Taking one object out of every table leaves no trace of it, and all else as it was.
  lemma RemoveKeepsSound(g: Graph, x: Object)
    requires Sound(g) && x in g
    ensures Sound(Removed(g, {x}))
    ensures forall a, s: int, y: Object? :: a in Removed(g, {x}) ==>
              (Has(Removed(g, {x})[a], s, y) <==> Has(g[a], s, y) && y != x)
  {
    var r := Removed(g, {x});
    forall a | a in r ensures TableOk(a, r[a], r.Keys) {
      forall s, z | s in r[a] && z in r[a][s] ensures EntryOk(a, r[a], s, z, r.Keys) {
        assert EntryOk(a, g[a], s, z, g.Keys);
      }
    }
  }

  // Whoever mentions another object, under any signal, is named in that object's DELETE hooks.
  lemma ObserversAreHooked(g: Graph, x: Object, a: Object, signal: int)
    requires Sound(g) && x in g && a in g && a != x && Has(g[a], signal, x)
    ensures Has(g[x], DELETE, a)
  {
    assert EntryOk(a, g[a], signal, x, g.Keys);
  }

  // An object that `x` is not hooked to does not mention `x` at all.
  lemma UnhookedIsUnaware(g: Graph, x: Object, a: Object)
    requires Sound(g) && x in g && a in g && a != x && !Has(g[x], DELETE, a)
    ensures Without(g[a], {x}) == g[a]
  {
    forall s | s in g[a] ensures g[a][s] - {x} == g[a][s] {
      if x in g[a][s] {
        ObserversAreHooked(g, x, a, s);
      }
    }
  }

  // What emitting DELETE does: all others forget `x`, which forgets nobody.
  ghost function Emitted(g: Graph, x: Object): Graph {
    map a | a in g :: if a == x then g[a] else Without(g[a], {x})
  }

  // For an object that lives on this is harmless only if it is hooked to no other; if it is, it goes
  // on mentioning others that have forgotten it.
  lemma EmitKeepsSound(g: Graph, x: Object)
    requires Sound(g) && x in g
    ensures Sound(Emitted(g, x)) <==> forall y: Object :: y in g && y != x ==> !Has(g[x], DELETE, y)
  {
    var r := Emitted(g, x);
    if forall y: Object :: y in g && y != x ==> !Has(g[x], DELETE, y) {
      forall a | a in g ensures r[a] == g[a] {
        if a != x {
          UnhookedIsUnaware(g, x, a);
        }
      }
      assert r == g;
    } else {
      var y: Object :| y in g && y != x && Has(g[x], DELETE, y);
      assert Has(r[x], DELETE, y) && !Has(r[y], DELETE, x);
    }
  }

  // ---------------------------------------------------------------- the actions a signal runs

  // All observers, each once, in some order.
  ghost predicate EachOnce(order: seq<Object?>, keys: set<Object?>) {
    && (forall i :: 0 <= i < |order| ==> order[i] in keys) && (forall k :: k in keys ==> k in order)
    && forall i, j :: 0 <= i < j < |order| ==> order[i] != order[j]
  }

  // Their actions one observer after the other, each one's in the order of registration.
  function InTurn(order: seq<Object?>, m: map<Object?, seq<Action>>): seq<Action> {
    if order == [] then []
    else
      var last := order[|order| - 1];
      InTurn(order[..|order| - 1], m) + if last in m then m[last] else []
  }

  lemma NoneYet(m: map<Object?, seq<Action>>)
    ensures EachOnce([], {}) && InTurn([], m) == []
  {
  }

  lemma OneMoreObserver(order: seq<Object?>, keys: set<Object?>, y: Object?, m: map<Object?, seq<Action>>)
    requires EachOnce(order, keys) && y !in keys && y in m
    ensures EachOnce(order + [y], keys + {y}) && InTurn(order + [y], m) == InTurn(order, m) + m[y]
  {
    assert (order + [y])[..|order|] == order;
  }

  // All actions registered, with how often each.
  ghost function AllActions(m: map<Object?, seq<Action>>): multiset<Action>
    decreases m.Keys
  {
    if m.Keys == {} then multiset{}
    else
      var k :| k in m.Keys;
      multiset(m[k]) + AllActions(m - {k})
  }

  lemma {:induction false} AnyFirst(m: map<Object?, seq<Action>>, k: Object?)
    requires k in m
    ensures AllActions(m) == multiset(m[k]) + AllActions(m - {k})
    decreases m.Keys
  {
    var j :| j in m.Keys && AllActions(m) == multiset(m[j]) + AllActions(m - {j});
    if j != k {
      AnyFirst(m - {j}, k);
      AnyFirst(m - {k}, j);
      BothTaken(m, j, k);
      hide AllActions;
    }
  }

  lemma BothTaken(m: map<Object?, seq<Action>>, j: Object?, k: Object?)
    ensures m - {j} - {k} == m - {k} - {j}
  {
  }

  // What emitting the signal is to run.
  ghost function Due(t: Table, signal: int): multiset<Action> {
    if signal in t then AllActions(t[signal]) else multiset{}
  }

  lemma {:induction false} InTurnIsAll(order: seq<Object?>, m: map<Object?, seq<Action>>)
    requires EachOnce(order, m.Keys)
    ensures multiset(InTurn(order, m)) == AllActions(m)
    decreases |order|
  {
    if order != [] {
      var n, last := |order| - 1, order[|order| - 1];
      var rest := order[..n];
      AnyFirst(m, last);
      assert EachOnce(rest, (m - {last}).Keys) by {
        forall k | k in (m - {last}).Keys ensures k in rest {
          var i :| 0 <= i < |order| && order[i] == k;
          assert rest[i] == k;
        }
      }
      InTurnIsAll(rest, m - {last});
      SameTurns(rest, m, m - {last});
    } else {
      assert m.Keys == {};
    }
  }

  lemma {:induction false} SameTurns(order: seq<Object?>, m: map<Object?, seq<Action>>, n: map<Object?, seq<Action>>)
    requires forall i :: 0 <= i < |order| ==> order[i] in m && order[i] in n && m[order[i]] == n[order[i]]
    ensures InTurn(order, m) == InTurn(order, n)
    decreases |order|
  {
    if order != [] {
      SameTurns(order[..|order| - 1], m, n);
    }
  }

  // A registration adds one action to its signal and none to another.
  lemma RegisterAdds(t: Table, signal: int, y: Object?, action: Action, s: int)
    ensures Due(Register(t, signal, y, action), s) == Due(t, s) + if s == signal then multiset{action} else multiset{}
  {
    var m := if signal in t then t[signal] else map[];
    OneMoreAction(m, y, action);
    NoActions();
    RegisterIsUpdate(t, signal, y, action);
    hide Register, AllActions;
  }

  lemma RegisterIsUpdate(t: Table, signal: int, y: Object?, action: Action)
    ensures var m := if signal in t then t[signal] else map[];
            Register(t, signal, y, action) == t[signal := m[y := (if y in m then m[y] else []) + [action]]]
  {
    assert [] + [action] == [action];
    if signal !in t {
      assert map[y := [action]] == map[][y := [action]];
    }
  }

  lemma NoActions()
    ensures AllActions(map[]) == multiset{}
  {
  }

  lemma OneMoreAction(m: map<Object?, seq<Action>>, y: Object?, action: Action)
    ensures AllActions(m[y := (if y in m then m[y] else []) + [action]]) == AllActions(m) + multiset{action}
  {
    var n := m[y := (if y in m then m[y] else []) + [action]];
    hide AllActions;
    AnyFirst(n, y);
    SameOthers(m, y, n[y]);
    Counted(if y in m then m[y] else [], action);
    if y in m {
      AnyFirst(m, y);
    }
  }

  lemma SameOthers(m: map<Object?, seq<Action>>, y: Object?, actions: seq<Action>)
    ensures m[y := actions] - {y} == m - {y}
    ensures y !in m ==> m - {y} == m
  {
  }

  lemma Counted(actions: seq<Action>, action: Action)
    ensures multiset(actions + [action]) == multiset(actions) + multiset{action}
  {
  }

  // Disconnecting an observer takes all its actions for the signal away.
  lemma EraseTakes(t: Table, signal: int, y: Object?, s: int)
    ensures Due(t, s) == Due(Erase(t, signal, y), s) + if s == signal && Has(t, s, y) then multiset(t[s][y]) else multiset{}
  {
    if s == signal && s in t {
      if y in t[s] {
        AnyFirst(t[s], y);
      } else {
        assert t[s] - {y} == t[s];
      }
    }
  }

  // The tables after `k` calls of connect with the same arguments.
  ghost function ConnectedTimes(g: Graph, x: Object, signal: int, y: Object?, action: Action, k: nat): (r: Graph)
    requires x in g && (y != null ==> y in g)
    ensures r.Keys == g.Keys
  {
    if k == 0 then g else Connected(ConnectedTimes(g, x, signal, y, action, k - 1), x, signal, y, action)
  }

  // An action that was connected k times is due k times more.
  lemma {:induction false} ConnectedIsDue(g: Graph, x: Object, signal: int, y: Object?, action: Action, k: nat)
    requires x in g && (y != null ==> y in g)
    ensures Due(ConnectedTimes(g, x, signal, y, action, k)[x], signal)[action] == Due(g[x], signal)[action] + k
  {
    if k > 0 {
      ConnectedIsDue(g, x, signal, y, action, k - 1);
      hide *;
      OnceMore(g, x, signal, y, action, k);
      OneMoreIsDue(ConnectedTimes(g, x, signal, y, action, k - 1), x, signal, y, action);
    }
  }

  lemma OnceMore(g: Graph, x: Object, signal: int, y: Object?, action: Action, k: nat)
    requires x in g && (y != null ==> y in g) && k > 0
    ensures ConnectedTimes(g, x, signal, y, action, k)
            == Connected(ConnectedTimes(g, x, signal, y, action, k - 1), x, signal, y, action)
  {
  }

  lemma OneMoreIsDue(g: Graph, x: Object, signal: int, y: Object?, action: Action)
    requires x in g && (y != null ==> y in g)
    ensures Due(Connected(g, x, signal, y, action)[x], signal)[action] == Due(g[x], signal)[action] + 1
  {
    hide Connected, Due;
    ConnectAdds(g, x, signal, y, action);
  }

  lemma ConnectAdds(g: Graph, x: Object, signal: int, y: Object?, action: Action)
    requires x in g && (y != null ==> y in g)
    ensures Due(Connected(g, x, signal, y, action)[x], signal) == Due(g[x], signal) + multiset{action}
  {
    RegisterAdds(g[x], signal, y, action, signal);
    if y != null && y != x && signal != DELETE {
      RegisterAdds(Register(g[x], signal, y, action), DELETE, y, Drop(y, x), signal);
    }
    hide Due, Register;
  }

  // ---------------------------------------------------------------- objects

  ghost function GraphOf(live: set<Object>): (g: Graph)
    reads live`connections
    ensures g.Keys == live
  {
    map x | x in live :: x.connections
  }

  lemma LastUpdateCounts(g: Graph, x: Object, a: Table, a': Table, y: Object, b: Table)
    requires x != y
    ensures g[x := a][y := b][x := a'] == g[x := a'][y := b]
  {
  }

  class Object {
    var name: string
    var parent: Object?
    var connections: Table
    const isManager: bool
    var items: map<string, Object>
    // Not in the code: items are of a lower level than their manager, which keeps containment acyclic.
    ghost var level: nat

    constructor (name: string, isManager: bool)
      ensures this.name == (if name == "" then UNDEFINED_OBJECT_NAME else name)
      ensures this.isManager == isManager && level == 0
      ensures parent == null && connections == map[] && items == map[]
    {
      this.name := if name == "" then UNDEFINED_OBJECT_NAME else name;
      this.isManager, level := isManager, 0;
      parent, connections, items := null, map[], map[];
    }

    method RegisterAction(signal: int, observer: Object?, action: Action)
      modifies `connections
      ensures connections == Register(old(connections), signal, observer, action)
    {
      if signal !in connections {
        connections := connections[signal := map[observer := [action]]];
      } else if observer !in connections[signal] {
        connections := connections[signal := connections[signal][observer := [action]]];
      } else {
        var actions := connections[signal][observer] + [action];
        connections := connections[signal := connections[signal][observer := actions]];
      }
    }

    method Connect(signal: int, observer: Object?, action: Action, ghost live: set<Object>)
      requires this in live && (observer != null ==> observer in live)
      modifies live`connections
      ensures GraphOf(live) == Connected(old(GraphOf(live)), this, signal, observer, action)
      ensures old(Sound(GraphOf(live))) && action.Plain? ==>
                (Sound(GraphOf(live)) <==> old(MayConnect(GraphOf(live), this, signal, observer)))
      decreases if signal == DELETE then 0 else 1
    {
      hide Sound, TableOk;
      if Sound(GraphOf(live)) && action.Plain? {
        ConnectKeepsSound(GraphOf(live), this, signal, observer, action.id);
      }
      ghost var g := GraphOf(live);
      ghost var t := Register(connections, signal, observer, action);
      hide Register;
      RegisterAction(signal, observer, action);
      assert GraphOf(live) == g[this := t];
      if observer != null && observer != this && signal != DELETE {
        observer.Connect(DELETE, this, Drop(this, observer), live);
        this.Connect(DELETE, observer, Drop(observer, this), live);
        LastUpdateCounts(g, this, t, Register(t, DELETE, observer, Drop(observer, this)), observer,
                         Register(g[observer], DELETE, this, Drop(this, observer)));
      }
    }

    method Disconnect(signal: int, observer: Object?, ghost live: set<Object>)
      requires this in live
      modifies `connections
      ensures connections == Erase(old(connections), signal, observer)
      ensures old(Sound(GraphOf(live))) ==>
                (Sound(GraphOf(live)) <==> signal != DELETE || observer == null || observer == this
                                           || !Has(old(connections), DELETE, observer))
    {
      ghost var g := GraphOf(live);
      hide Sound;
      if Sound(g) {
        EraseKeepsSound(g, this, signal, observer);
      }
      if signal in connections {
        connections := connections[signal := connections[signal] - {observer}];
      }
      assert GraphOf(live) == g[this := Erase(g[this], signal, observer)];
    }

    // disconnect(Object*), the hooks' own action.
    method DisconnectAll(observer: Object?)
      modifies `connections
      ensures connections == Without(old(connections), {observer})
    {
      var signals := connections.Keys;
      while exists s :: s in signals
        invariant signals <= connections.Keys
        invariant connections.Keys == old(connections).Keys
        invariant forall s :: s in connections ==>
                    connections[s] == if s in signals then old(connections)[s] else old(connections)[s] - {observer}
        decreases |signals|
      {
        var s :| s in signals;
        connections := connections[s := connections[s] - {observer}];
        signals := signals - {s};
      }
      assert forall s :: s in connections ==> connections[s] == Without(old(connections), {observer})[s];
    }

    // An action, run on behalf of whoever emits; a hook runs on a live object. `ran` is the history of
    // the actions run.
    method Run(action: Action, ghost live: set<Object>) returns (ran: seq<Action>)
      requires action.Drop? ==> action.subject in live
      modifies live`connections
      ensures ran == [action]
      ensures forall x :: x in live ==>
                x.connections == if action.Drop? && x == action.subject then Without(old(x.connections), {action.observer})
                                 else old(x.connections)
    {
      if action.Drop? {
        action.subject.DisconnectAll(action.observer);
      }
      ran := [action];
    }

    // One observer's actions, in order.
    method RunAll(signal: int, y: Object?, actions: seq<Action>, ghost live: set<Object>) returns (ran: seq<Action>)
      requires Runnable(signal, y, actions, live)
      modifies live`connections
      ensures ran == actions
      ensures forall x :: x in live ==>
                x.connections == if signal == DELETE && x == y && x != this then Without(old(x.connections), {this})
                                 else old(x.connections)
    {
      var i := 0;
      ran := [];
      while i < |actions|
        invariant i <= |actions| && ran == actions[..i]
        invariant forall x :: x in live ==>
                    x.connections == if x == y && Drop(x, this) in actions[..i] then Without(old(x.connections), {this})
                                     else old(x.connections)
      {
        assert actions[..i + 1] == actions[..i] + [actions[i]];
        var more := Run(actions[i], live);
        ran := ran + more;
        if actions[i].Drop? {
          WithoutTwice(old(y.connections), {this}, {this});
          assert {this} + {this} == {this};
        }
        i := i + 1;
      }
      assert actions[..i] == actions;
    }

    // emit: a copy of the signal's observers is gone through, in any order, and every action run.
    // On the DELETE signal this takes the object out of every other table, which is meant for an
    // object that is about to go: one that stays must not be hooked to any other.
    method Emit(signal: int, ghost live: set<Object>) returns (ran: seq<Action>, ghost order: seq<Object?>)
      requires this in live && Sound(GraphOf(live))
      modifies live`connections
      ensures if signal in old(connections) then
                EachOnce(order, old(connections)[signal].Keys) && ran == InTurn(order, old(connections)[signal])
              else ran == []
      ensures multiset(ran) == Due(old(connections), signal)
      ensures Sound(GraphOf(live))
              <==> signal != DELETE || forall y: Object :: y in live && y != this ==> !Has(old(connections), DELETE, y)
      ensures GraphOf(live) == if signal == DELETE then Emitted(old(GraphOf(live)), this) else old(GraphOf(live))
    {
      ghost var was := GraphOf(live);
      hide Sound;
      ran, order := RunObservers(signal, live);
      if signal in was[this] {
        InTurnIsAll(order, was[this][signal]);
      }
      if signal == DELETE {
        EmitKeepsSound(was, this);
        assert GraphOf(live) == Emitted(was, this);
      } else {
        assert GraphOf(live) == was;
      }
    }

    method RunObservers(signal: int, ghost live: set<Object>) returns (ran: seq<Action>, ghost order: seq<Object?>)
      requires this in live && Sound(GraphOf(live))
      modifies live`connections
      ensures if signal in old(connections) then
                EachOnce(order, old(connections)[signal].Keys) && ran == InTurn(order, old(connections)[signal])
              else ran == []
      ensures forall x :: x in live ==>
                x.connections == if signal == DELETE && x != this then Without(old(x.connections), {this})
                                 else old(x.connections)
    {
      if signal !in connections {
        if signal == DELETE {
          forall x | x in live && x != this ensures Without(x.connections, {this}) == x.connections {
            UnhookedIsUnaware(GraphOf(live), this, x);
          }
        }
        return [], [];
      }
      var observers := connections[signal];
      ghost var was := GraphOf(live);
      assert TableOk(this, was[this], live);
      assert forall y :: y in observers ==> EntryOk(this, was[this], signal, y, live);
      assert forall y :: y in observers ==> Runnable(signal, y, observers[y], live);
      if signal == DELETE {
        forall x | x in live && x != this && x !in observers ensures Without(was[x], {this}) == was[x] {
          UnhookedIsUnaware(was, this, x);
        }
      }
      hide Sound, EachOnce, InTurn, Runnable;
      ran, order := RunEach(signal, observers, live);
    }

    // What an observer's actions may be.
    predicate Runnable(signal: int, y: Object?, actions: seq<Action>, live: set<Object>) {
      if signal == DELETE && y != null && y != this then y in live && Hooks(actions, y, this) else AllPlain(actions)
    }

    method RunEach(signal: int, observers: map<Object?, seq<Action>>, ghost live: set<Object>)
      returns (ran: seq<Action>, ghost order: seq<Object?>)
      requires this in live && forall y :: y in observers ==> Runnable(signal, y, observers[y], live)
      modifies live`connections
      ensures EachOnce(order, observers.Keys) && ran == InTurn(order, observers)
      ensures forall x :: x in live ==>
                x.connections == if signal == DELETE && x != this && x in observers then Without(old(x.connections), {this})
                                 else old(x.connections)
    {
      var left := observers.Keys;
      ghost var seen: set<Object?> := {};
      ran, order := [], [];
      NoneYet(observers);
      hide EachOnce, InTurn, Runnable;
      while exists y :: y in left
        invariant left <= observers.Keys
        invariant seen == observers.Keys - left && EachOnce(order, seen) && ran == InTurn(order, observers)
        invariant forall x :: x in live ==>
                    x.connections == if signal == DELETE && x != this && x in seen then Without(old(x.connections), {this})
                                     else old(x.connections)
        decreases |left|
      {
        var y :| y in left;
        var more := RunAll(signal, y, observers[y], live);
        OneMoreObserver(order, seen, y, observers);
        ran, order, seen, left := ran + more, order + [y], seen + {y}, left - {y};
      }
      assert seen == observers.Keys;
    }

    // ------------------------------------------------------------ the registry

    // erase by name, or else the entry that holds the object, whatever its key.
    method Unlist(obj: Object) returns (found: bool)
      modifies `items
      ensures obj.name in old(items) ==> found && items == old(items) - {obj.name}
      ensures obj.name !in old(items) && !found ==> items == old(items) && forall k :: k in items ==> items[k] != obj
      ensures obj.name !in old(items) && found ==>
                exists k :: k in old(items) && old(items)[k] == obj && items == old(items) - {k}
    {
      found := obj.name in items;
      if found {
        items := items - {obj.name};
        return;
      }
      var keys := items.Keys;
      while exists k :: k in keys
        invariant keys <= items.Keys && items == old(items) && !found
        invariant forall k :: k in items && k !in keys ==> items[k] != obj
        decreases |keys|
      {
        var k :| k in keys;
        if items[k] == obj {
          items := items - {k};
          found := true;
          return;
        }
        keys := keys - {k};
      }
    }

    // ~Object, for a manager after its items are gone.
    method Depart(ghost live: set<Object>, ghost leaving: set<Object>) returns (ghost live': set<Object>)
      requires this in live && this !in leaving && Ready(live, leaving + {this})
      requires parent != null ==> parent !in leaving
      requires forall x :: x in live ==> x.parent != this
      modifies live`parent, live`items, live`connections
      ensures live' == live - {this}
      ensures GraphOf(live') == Removed(old(GraphOf(live)), live - live')
      ensures Ready(live', leaving)
      ensures forall x :: x in live' ==> x.name == old(x.name) && x.parent == old(x.parent)
      ensures forall x :: x in live' ==> x.items == if x == old(parent) then old(x.items) - {old(name)} else old(x.items)
    {
      ghost var was := GraphOf(live);
      hide Sound, Consistent, Removed, Emitted, GraphOf, EachOnce, InTurn, Due;
      var _, _ := Emit(DELETE, live);
      WithoutTheDead(live, this, was);
      RemoveKeepsSound(was, this);
      LeaveRegistry(live, leaving);
      live' := live - {this};
      assert live - live' == {this};
    }

    // The end of ~Object: a manager that lists the object forgets it.
    method LeaveRegistry(ghost live: set<Object>, ghost leaving: set<Object>)
      requires this in live && this !in leaving && Consistent(live, leaving + {this})
      requires parent != null ==> parent !in leaving
      requires forall x :: x in live ==> x.parent != this
      modifies live`items, this`parent
      ensures Consistent(live - {this}, leaving)
      ensures forall x :: x in live && x != this ==>
                x.items == if x == old(parent) then old(x.items) - {name} else old(x.items)
    {
      if parent != null && parent.isManager {
        var found := parent.Unlist(this);
        if found {
          parent := null;
        }
      }
    }

    // delete: a manager first deletes its items, each with its own items, then the object departs.
    // It must be live, and it must not be reached again from one of its own containers' deletion.
    method Delete(ghost live: set<Object>, ghost leaving: set<Object>) returns (ghost live': set<Object>)
      requires this in live && Ready(live, leaving) && (forall m :: m in leaving ==> level < m.level)
      requires parent != null ==> parent !in leaving
      modifies live`parent, live`items, live`connections
      ensures live' <= live && this !in live' && Ready(live', leaving)
      ensures GraphOf(live') == Removed(old(GraphOf(live)), live - live')
      ensures DiedWith(this, live, live', old(Registry(live)))
      ensures forall x :: x in live' ==> x.name == old(x.name) && x.parent == old(x.parent)
      ensures forall x :: x in live' ==> x.items == if x == old(parent) then old(x.items) - {old(name)} else old(x.items)
      decreases level, 5
    {
      live' := live;
      RemovedNothing(GraphOf(live));
      assert live - live == {};
      if isManager {
        live' := DeleteItems(live, leaving);
      } else {
        PlainContainsNothing(this, live, leaving);
      }
      ghost var rest := live';
      DiedWithItems(this, live, rest, old(Registry(live)));
      hide Ready, Removed, DiedWith, DiedWithin;
      live' := Depart(rest, leaving);
      RemovedTwice(old(GraphOf(live)), live, rest, live');
    }

    // ~ObjectManager: every item is cut off from the manager and deleted, in any order.
    method DeleteItems(ghost live: set<Object>, ghost leaving: set<Object>) returns (ghost live': set<Object>)
      requires this in live && isManager && Ready(live, leaving) && (forall m :: m in leaving ==> level < m.level)
      modifies live`parent, live`items, live`connections
      ensures live' <= live && this in live' && Ready(live', leaving + {this})
      ensures forall x :: x in live' ==> x.parent != this
      ensures GraphOf(live') == Removed(old(GraphOf(live)), live - live')
      ensures DiedWithin(this, live, live', old(Registry(live)))
      ensures Untouched(live', old(Registry(live)))
      decreases level, 4
    {
      EmptyingStarts(this, live, leaving);
      ghost var tables, was := GraphOf(live), Registry(live);
      hide Emptying, Ready, Removed, DiedWithin, Untouched, GraphOf, Registry;
      live' := DeleteAll(live, leaving, tables, was);
      EmptyingEnds(this, {}, live, live', leaving, tables, was);
    }

    method DeleteAll(ghost live: set<Object>, ghost leaving: set<Object>, ghost tables: Graph,
                     ghost was: map<Object, Record>) returns (ghost live': set<Object>)
      requires isManager && Emptying(this, items.Keys, live, live, leaving, tables, was)
      requires forall m :: m in leaving ==> level < m.level
      modifies live`parent, live`items, live`connections
      ensures live' <= live && Emptying(this, {}, live, live', leaving, tables, was)
      decreases level, 3
    {
      hide Emptying;
      live' := live;
      var keys := items.Keys;
      while exists k :: k in keys
        invariant live' <= live && Emptying(this, keys, live, live', leaving, tables, was)
        decreases |keys|
      {
        var k :| k in keys;
        live' := DeleteItem(k, keys, live, live', leaving, tables, was);
        keys := keys - {k};
      }
      assert keys == {};
    }

    // One turn of the loop. `all` were live when it began, with the tables and the registry given.
    method DeleteItem(k: string, ghost keys: set<string>, ghost all: set<Object>, ghost live: set<Object>,
                      ghost leaving: set<Object>, ghost tables: Graph, ghost was: map<Object, Record>)
      returns (ghost live': set<Object>)
      requires isManager && k in keys && Emptying(this, keys, all, live, leaving, tables, was)
      requires forall m :: m in leaving ==> level < m.level
      modifies live`parent, live`items, live`connections
      ensures live' <= live && Emptying(this, keys - {k}, all, live', leaving, tables, was)
      decreases level, 2
    {
      EmptyingHas(this, k, keys, all, live, leaving, tables, was);
      hide Emptying, Ready, Removed, DiedWith, DiedWithin, Listed, Untouched, Registry, GraphOf, Rest;
      live' := Discard(k, items[k], live, leaving);
      EmptyingGoesOn(this, k, keys, all, live, live', leaving, tables, was);
    }

    // The item's link to the manager is cut and the item deleted.
    method Discard(ghost k: string, obj: Object, ghost live: set<Object>, ghost leaving: set<Object>)
      returns (ghost live': set<Object>)
      requires this in live && obj in live && Ready(live, leaving + {this})
      requires k in items && items[k] == obj && obj.parent == this
      requires forall m :: m in leaving ==> level < m.level
      modifies live`parent, live`items, live`connections
      ensures live' <= live && this in live' && obj !in live' && Ready(live', leaving + {this})
      ensures GraphOf(live') == Removed(old(GraphOf(live)), live - live')
      ensures DiedWith(obj, live, live', old(Registry(live))) && Untouched(live', old(Registry(live)))
      ensures items == old(items)
      decreases level, 1
    {
      ghost var before := Registry(live);
      RecordsAre(live);
      hide Ready, Removed, DiedWith, GraphOf, Registry;
      CutOff(k, obj, live, leaving);
      ghost var now := Registry(live);
      RecordsAre(live);
      live' := obj.Delete(live, leaving + {this});
      DiedLoose(obj, live, live', now, before);
    }

    method CutOff(ghost k: string, obj: Object, ghost live: set<Object>, ghost leaving: set<Object>)
      requires Ready(live, leaving + {this}) && this in live && obj in live
      requires k in items && items[k] == obj && obj.parent == this
      requires forall m :: m in leaving ==> level < m.level
      modifies obj`parent
      ensures Ready(live, leaving + {this}) && obj.parent == null
      ensures obj.level < level && forall m :: m in leaving + {this} ==> obj.level < m.level
    {
      hide Sound, Filed, Ready, GraphOf, Descends, Levels;
      ghost var was := Registry(live);
      ReadyMeans(live, leaving + {this});
      ItemIsBelow(this, k, live, leaving + {this});
      OrphanKeepsFiled(was, Levels(live), obj, leaving + {this});
      Orphan(obj, live);
      ReadyMeans(live, leaving + {this});
    }

    method Orphan(obj: Object, ghost live: set<Object>)
      requires obj in live
      modifies obj`parent
      ensures obj.parent == null && GraphOf(live) == old(GraphOf(live)) && Levels(live) == old(Levels(live))
      ensures Registry(live) == old(Registry(live))[obj := old(Registry(live))[obj].(parent := null)]
    {
      obj.parent := null;
    }

    // Not in the code: levels are raised from this manager upwards until an object outside is below it.
    ghost method MakeRoom(obj: Object, needed: bool, live: set<Object>)
      requires this in live && Ready(live, {}) && (needed ==> Outside(obj, this, live))
      modifies live`level
      ensures Ready(live, {}) && (needed ==> obj.level < level)
      ensures GraphOf(live) == old(GraphOf(live)) && Registry(live) == old(Registry(live))
    {
      if !needed {
        return;
      }
      var above: set<Object> :| above <= live && Above(above, this, live) && obj !in above;
      var n := obj.level + 1;
      hide Sound, GraphOf;
      forall x: Object | x in above {
        x.level := x.level + n;
      }
    }

    // ------------------------------------------------------------ add and remove

    method Get(key: string) returns (obj: Object?)
      ensures obj == if key in items then items[key] else null
    {
      obj := if key in items then items[key] else null;
    }

    // An object that another manager lists is added all the same, and then both list it. One that is
    // refused is deleted on request, even if it is this manager's own.
    method Add(obj: Object?, deleteIfFailed: bool, ghost live: set<Object>)
      returns (added: Object?, ghost live': set<Object>)
      requires this in live && isManager && Ready(live, {})
      requires obj != null ==> obj in live && Outside(obj, this, live)
      modifies live`parent, live`items, live`connections, live`level
      ensures live' <= live && this in live'
      ensures Ready(live', {}) <==> obj == null || old(obj.name) in old(items) || old(obj.parent) == null
      ensures GraphOf(live') == Removed(old(GraphOf(live)), live - live')
      ensures added == if obj != null && old(obj.name) !in old(items) then obj else null
      ensures Registry(live') == if added != null then Refiled(old(Registry(live)), this, obj)
                                 else if obj != null && deleteIfFailed then Rest(Departed(old(Registry(live)), obj), live')
                                 else old(Registry(live))
      ensures if added == null && obj != null && deleteIfFailed then obj !in live' && DiedWith(obj, live, live', old(Registry(live)))
              else live' == live
    {
      if obj == null {
        NobodyLeaves(GraphOf(live), Registry(live), live);
        return null, live;
      }
      OutsideIsOther(obj, this, live);
      hide *;
      MakeRoom(obj, true, live);
      added, live' := AddObject(obj, deleteIfFailed, live);
    }

    method AddObject(obj: Object, deleteIfFailed: bool, ghost live: set<Object>)
      returns (added: Object?, ghost live': set<Object>)
      requires this in live && isManager && Ready(live, {}) && obj in live && obj.level < level
      modifies live`parent, live`items, live`connections
      ensures live' <= live && this in live'
      ensures Ready(live', {}) <==> old(obj.name) in old(items) || old(obj.parent) == null
      ensures GraphOf(live') == Removed(old(GraphOf(live)), live - live')
      ensures added == if old(obj.name) !in old(items) then obj else null
      ensures Registry(live') == if added != null then Refiled(old(Registry(live)), this, obj)
                                 else if deleteIfFailed then Rest(Departed(old(Registry(live)), obj), live')
                                 else old(Registry(live))
      ensures if added == null && deleteIfFailed then obj !in live' && DiedWith(obj, live, live', old(Registry(live)))
              else live' == live
    {
      live' := live;
      NobodyLeaves(GraphOf(live), Registry(live), live);
      hide Ready, Removed, Rest, Refiled, DiedWith, Departed, Registry, GraphOf;
      if obj.name !in items {
        Enlist(obj, live);
        return obj, live';
      }
      if deleteIfFailed {
        live' := obj.DeleteBelow(this, live);
      }
      added := null;
    }

    method Enlist(obj: Object, ghost live: set<Object>)
      requires this in live && isManager && Ready(live, {}) && obj.name !in items
      requires obj in live && obj.level < level
      modifies obj`parent, this`items
      ensures Ready(live, {}) <==> old(obj.parent) == null
      ensures Registry(live) == Refiled(old(Registry(live)), this, obj)
    {
      hide Sound, Filed, Ready, GraphOf, Descends;
      ReadyMeans(live, {});
      RefiledFiled(Registry(live), this, obj);
      RefiledDescends(Registry(live), Levels(live), this, obj);
      PutEntry(obj, live);
      ReadyMeans(live, {});
    }

    method PutEntry(obj: Object, ghost live: set<Object>)
      requires this in live && obj in live && obj != this
      modifies obj`parent, this`items
      ensures GraphOf(live) == old(GraphOf(live)) && Levels(live) == old(Levels(live))
      ensures Registry(live) == Refiled(old(Registry(live)), this, obj)
    {
      ghost var was := Registry(live);
      RecordsAre(live);
      RefiledAt(was, this, obj);
      hide Registry, Refiled;
      obj.parent := this;
      items := items[obj.name := obj];
      RegistryIs(live, Refiled(was, this, obj));
    }

    // remove without auto_delete. Whoever calls it for an object that is not registered here, while
    // another one is under the same name, tears the registry: the other one is forgotten.
    method Detach(obj: Object, ghost live: set<Object>) returns (found: bool)
      requires this in live && isManager && Ready(live, {}) && obj in live
      modifies this`items, obj`parent
      ensures Ready(live, {}) <==> obj.name !in old(items) || old(items)[obj.name] == obj
      ensures Sound(GraphOf(live)) && (found <==> obj.name in old(items))
      ensures Registry(live) == if found then Unfiled(old(Registry(live)), this, obj) else old(Registry(live))
      ensures found ==> obj.parent == null && Ready(live, LeftTorn(old(Registry(live)), this, obj))
      ensures found && !Stranger(old(Registry(live)), this, obj) ==> old(obj.parent) == this && obj.level < level
      ensures forall m :: m in LeftTorn(old(Registry(live)), this, obj) && m != this ==> obj.level < m.level
      ensures !found ==> old(obj.parent) != this
      ensures Stranger(old(Registry(live)), this, obj) ==> found
    {
      hide Sound, Filed, Ready, GraphOf, Descends, Levels;
      ghost var left := LeftTorn(Registry(live), this, obj);
      ReadyMeans(live, {});
      OwnerIsAbove(obj, live);
      StrangerIs(this, obj, live);
      TornIs(this, obj, live);
      hide LeftTorn, Stranger;
      if obj.name in items {
        UnfiledFiled(Registry(live), this, obj);
        UnfiledDescends(Registry(live), Levels(live), this, obj);
        ItemsAreListed(this, live);
      }
      found := Forget(obj, live);
      ReadyMeans(live, {});
      ReadyMeans(live, left);
    }

    method Forget(obj: Object, ghost live: set<Object>) returns (found: bool)
      requires this in live && obj in live && forall k :: k in items && items[k] == obj ==> k == obj.name
      modifies this`items, obj`parent
      ensures found <==> obj.name in old(items)
      ensures found ==> obj.parent == null
      ensures GraphOf(live) == old(GraphOf(live)) && Levels(live) == old(Levels(live))
      ensures Registry(live) == if found then Unfiled(old(Registry(live)), this, obj) else old(Registry(live))
    {
      ghost var was, listed := Registry(live), items;
      RecordsAre(live);
      UnfiledAt(was, this, obj);
      hide Registry, Unfiled;
      found := Unlist(obj);
      assert found == (obj.name in listed) && items == if found then listed - {obj.name} else listed;
      if found {
        obj.parent := null;
      }
      RegistryIs(live, if found then Unfiled(was, this, obj) else was);
    }

    // Not even an object that is not registered here, while another one is under its name, survives
    // a removal with deletion; but it must not contain this manager.
    method Remove(obj: Object?, autoDelete: bool, ghost live: set<Object>)
      returns (found: bool, ghost live': set<Object>)
      requires this in live && isManager && Ready(live, {})
      requires obj != null ==> obj in live
      requires obj != null && autoDelete && obj.name in items && items[obj.name] != obj ==> Outside(obj, this, live)
      modifies live`parent, live`items, live`connections, live`level
      ensures live' <= live && this in live'
      ensures Ready(live', {}) <==> obj == null || old(obj.name) !in old(items) || old(items)[old(obj.name)] == obj
      ensures GraphOf(live') == Removed(old(GraphOf(live)), live - live') && Sound(GraphOf(live'))
      ensures found <==> obj != null && old(obj.name) in old(items)
      ensures Ready(live', {}) ==> (found <==> obj != null && old(obj.parent) == this)
      ensures Registry(live') == Rest(if found then Unfiled(old(Registry(live)), this, obj) else old(Registry(live)), live')
      ensures if found && autoDelete then obj !in live' && DiedWith(obj, live, live', old(Registry(live))) else live' == live
    {
      if obj == null {
        ReadyIsSound(live, {});
        NobodyLeaves(GraphOf(live), Registry(live), live);
        return false, live;
      }
      StrangerIs(this, obj, live);
      hide *;
      MakeRoom(obj, autoDelete && Stranger(Registry(live), this, obj), live);
      found, live' := RemoveObject(obj, autoDelete, live);
    }

    method RemoveObject(obj: Object, autoDelete: bool, ghost live: set<Object>)
      returns (found: bool, ghost live': set<Object>)
      requires this in live && isManager && Ready(live, {}) && obj in live
      requires autoDelete && Stranger(Registry(live), this, obj) ==> obj.level < level
      modifies live`parent, live`items, live`connections
      ensures live' <= live && this in live' && Sound(GraphOf(live'))
      ensures Ready(live', {}) <==> !Stranger(old(Registry(live)), this, obj)
      ensures GraphOf(live') == Removed(old(GraphOf(live)), live - live')
      ensures found <==> old(obj.name) in old(items)
      ensures Ready(live', {}) ==> (found <==> old(obj.parent) == this)
      ensures Registry(live') == Rest(if found then Unfiled(old(Registry(live)), this, obj) else old(Registry(live)), live')
      ensures if found && autoDelete then obj !in live' && DiedWith(obj, live, live', old(Registry(live))) else live' == live
    {
      live' := live;
      ghost var was := Registry(live);
      ReadyMeans(live, {});
      hide *;
      found := Detach(obj, live);
      if found {
        live' := FinishRemoval(obj, autoDelete, live, was);
      } else {
        NobodyLeaves(GraphOf(live), Registry(live), live);
      }
    }

    method RemoveByName(name: string, autoDelete: bool, ghost live: set<Object>)
      returns (found: bool, ghost live': set<Object>)
      requires this in live && isManager && Ready(live, {})
      modifies live`parent, live`items, live`connections
      ensures live' <= live && this in live' && Ready(live', {})
      ensures GraphOf(live') == Removed(old(GraphOf(live)), live - live')
      ensures found <==> name in old(items)
      ensures found ==> old(items)[name] in live
                        && Registry(live') == Rest(Unfiled(old(Registry(live)), this, old(items)[name]), live')
      ensures !found ==> Registry(live') == old(Registry(live))
      ensures if found && autoDelete then
                old(items)[name] !in live' && DiedWith(old(items)[name], live, live', old(Registry(live)))
              else live' == live
    {
      hide *;
      var obj := Get(name);
      if obj == null || name !in items {
        live' := live;
        NobodyLeaves(GraphOf(live), Registry(live), live);
        return false, live';
      }
      ItemIsListed(this, name, live);
      found := true;
      live' := RemoveEntry(obj, autoDelete, live);
    }

    method RemoveEntry(obj: Object, autoDelete: bool, ghost live: set<Object>) returns (ghost live': set<Object>)
      requires this in live && isManager && Ready(live, {}) && obj.name in items && items[obj.name] == obj && obj in live
      modifies live`parent, live`items, live`connections
      ensures live' <= live && this in live' && Ready(live', {})
      ensures GraphOf(live') == Removed(old(GraphOf(live)), live - live')
      ensures Registry(live') == Rest(Unfiled(old(Registry(live)), this, obj), live')
      ensures if autoDelete then obj !in live' && DiedWith(obj, live, live', old(Registry(live))) else live' == live
    {
      ghost var was := Registry(live);
      ReadyMeans(live, {});
      StrangerIs(this, obj, live);
      hide Ready, Removed, Rest, DiedWith, Unfiled, Registry, GraphOf, Filed, Stranger, Sound, Descends, Levels;
      Cut(obj, live);
      live' := FinishRemoval(obj, autoDelete, live, was);
    }

    // The end of both removals: the object is out of this manager, and goes if it is to be deleted.
    method FinishRemoval(obj: Object, autoDelete: bool, ghost live: set<Object>, ghost was: map<Object, Record>)
      returns (ghost live': set<Object>)
      requires this in live && obj in live && obj.parent == null && was.Keys == live && Filed(was, {})
      requires Registry(live) == Unfiled(was, this, obj) && Ready(live, LeftTorn(was, this, obj))
      requires autoDelete ==> obj.level < level && forall m :: m in LeftTorn(was, this, obj) ==> obj.level < m.level
      modifies live`parent, live`items, live`connections
      ensures live' <= live && this in live' && Sound(GraphOf(live'))
      ensures Ready(live', {}) <==> !Stranger(was, this, obj)
      ensures GraphOf(live') == Removed(old(GraphOf(live)), live - live')
      ensures Registry(live') == Rest(Unfiled(was, this, obj), live')
      ensures if autoDelete then obj !in live' && DiedWith(obj, live, live', was) else live' == live
    {
      live' := live;
      NobodyLeaves(GraphOf(live), Registry(live), live);
      hide Ready, Removed, DiedWith, Sound, Registry, GraphOf, Rest, Unfiled, Stranger, LeftTorn, Filed;
      if autoDelete {
        live' := DeleteDetached(obj, live, LeftTorn(was, this, obj), was);
      }
      ReadyIsSound(live', LeftTorn(was, this, obj));
      StaysTorn(this, obj, live, live', was);
    }

    method DeleteDetached(obj: Object, ghost live: set<Object>, ghost leaving: set<Object>, ghost was: map<Object, Record>)
      returns (ghost live': set<Object>)
      requires this in live && obj in live && obj.parent == null && was.Keys == live
      requires Registry(live) == Unfiled(was, this, obj) && Ready(live, leaving)
      requires obj.level < level && forall m :: m in leaving ==> obj.level < m.level
      modifies live`parent, live`items, live`connections
      ensures live' <= live && this in live' && Ready(live', leaving)
      ensures GraphOf(live') == Removed(old(GraphOf(live)), live - live')
      ensures Registry(live') == Rest(Unfiled(was, this, obj), live')
      ensures obj !in live' && DiedWith(obj, live, live', was)
    {
      ghost var now := Registry(live);
      hide Ready, Removed, DiedWith, Registry, GraphOf, Rest, Unfiled;
      live' := obj.DeleteLoose(this, live, leaving);
      UnfiledAt(was, this, obj);
      DiedLoose(obj, live, live', now, was);
    }

    method Cut(obj: Object, ghost live: set<Object>)
      requires this in live && isManager && Ready(live, {}) && obj.name in items && items[obj.name] == obj
      modifies this`items, obj`parent
      ensures Ready(live, {}) && obj.parent == null && obj in live && obj.level < level
      ensures Registry(live) == Unfiled(old(Registry(live)), this, obj)
    {
      hide Sound, Filed, Ready, GraphOf, Descends, Levels;
      ReadyMeans(live, {});
      ItemsAreListed(this, live);
      UnfiledFiled(Registry(live), this, obj);
      UnfiledDescends(Registry(live), Levels(live), this, obj);
      TakeEntry(obj, live);
      ReadyMeans(live, {});
    }

    method TakeEntry(obj: Object, ghost live: set<Object>)
      requires this in live && obj in live
      modifies this`items, obj`parent
      ensures obj.parent == null && GraphOf(live) == old(GraphOf(live)) && Levels(live) == old(Levels(live))
      ensures Registry(live) == Unfiled(old(Registry(live)), this, obj)
    {
      ghost var was := Registry(live);
      RecordsAre(live);
      UnfiledAt(was, this, obj);
      hide Registry, Unfiled;
      items := items - {obj.name};
      obj.parent := null;
      RegistryIs(live, Unfiled(was, this, obj));
    }

    // The entry of the map under `k` after fix.
    predicate Named(k: string)
      requires k in items
      reads this, items[k]
    {
      items[k].parent == this && items[k].name in items && items[items[k].name] == items[k]
    }

    // fix: after entries were put into the map directly, every object gets the manager as its parent
    // and its key as its name; an object under several keys gets one of them.
    method Fix(ghost live: set<Object>)
      requires forall k :: k in items ==> items[k] in live
      modifies live`name, live`parent
      ensures forall k :: k in items ==> Named(k)
      ensures (forall k :: k in items ==> items[k].name == k)
              <==> forall j, k :: j in items && k in items && j != k ==> items[j] != items[k]
      ensures forall x :: x in live && x !in items.Values ==> x.name == old(x.name) && x.parent == old(x.parent)
    {
      var keys := items.Keys;
      while exists k :: k in keys
        invariant keys <= items.Keys
        invariant forall k :: k in items && k !in keys ==> Named(k)
        invariant forall x :: x in live && x !in items.Values ==> x.name == old(x.name) && x.parent == old(x.parent)
        decreases |keys|
      {
        var k :| k in keys;
        items[k].name := k;
        items[k].parent := this;
        keys := keys - {k};
      }
    }

    // Deletes an object; a manager of a higher level survives.
    method DeleteBelow(ghost m: Object, ghost live: set<Object>) returns (ghost live': set<Object>)
      requires this in live && Ready(live, {}) && m in live && level < m.level
      modifies live`parent, live`items, live`connections
      ensures live' <= live && this !in live' && m in live' && Ready(live', {})
      ensures GraphOf(live') == Removed(old(GraphOf(live)), live - live')
      ensures Registry(live') == Rest(Departed(old(Registry(live)), this), live')
      ensures DiedWith(this, live, live', old(Registry(live)))
    {
      ghost var was := Registry(live);
      hide Ready, Removed;
      live' := Delete(live, {});
      assert Registry(live') == Rest(Departed(was, this), live');
    }

    // Deletes an object without a manager.
    method DeleteLoose(ghost m: Object, ghost live: set<Object>, ghost leaving: set<Object>)
      returns (ghost live': set<Object>)
      requires this in live && Ready(live, leaving) && m in live && level < m.level && parent == null
      requires forall x :: x in leaving ==> level < x.level
      modifies live`parent, live`items, live`connections
      ensures live' <= live && this !in live' && m in live' && Ready(live', leaving) && Sound(GraphOf(live'))
      ensures GraphOf(live') == Removed(old(GraphOf(live)), live - live')
      ensures Registry(live') == Rest(old(Registry(live)), live')
      ensures DiedWith(this, live, live', old(Registry(live)))
    {
      ghost var was := Registry(live);
      hide Ready, Removed, Sound;
      live' := Delete(live, leaving);
      assert Registry(live') == Rest(was, live');
      ReadyIsSound(live', leaving);
    }
  }

  // ---------------------------------------------------------------- the registry as a value

  // What Consistent says of it, levels apart.
  ghost predicate Filed(reg: map<Object, Record>, leaving: set<Object>) {
    && (forall m, k :: m in reg && m !in leaving && k in reg[m].items ==>
          reg[m].items[k] in reg && reg[reg[m].items[k]].name == k && reg[reg[m].items[k]].parent == m)
    && (forall x :: x in reg && reg[x].parent != null && reg[x].parent !in leaving ==> Lists(reg, reg[x].parent, x))
  }

  ghost predicate Lists(reg: map<Object, Record>, m: Object, x: Object)
    requires x in reg
  {
    m in reg && reg[x].name in reg[m].items && reg[m].items[reg[x].name] == x
  }

  ghost function Levels(live: set<Object>): (r: map<Object, nat>)
    reads live`level
    ensures r.Keys == live
  {
    map x | x in live :: x.level
  }

  ghost predicate Descends(reg: map<Object, Record>, levels: map<Object, nat>)
    requires levels.Keys == reg.Keys
  {
    forall m, k :: m in reg && k in reg[m].items ==>
      m.isManager && (reg[m].items[k] in reg ==> levels[reg[m].items[k]] < levels[m])
  }

  lemma RecordsAre(live: set<Object>)
    ensures forall x :: x in live ==> Registry(live)[x] == Record(x.name, x.parent, x.items)
  {
  }

  lemma RegistryIs(live: set<Object>, reg: map<Object, Record>)
    requires reg.Keys == live && forall x :: x in live ==> reg[x] == Record(x.name, x.parent, x.items)
    ensures Registry(live) == reg
  {
  }

  lemma UnfiledAt(reg: map<Object, Record>, m: Object, o: Object)
    requires m in reg && o in reg
    ensures Unfiled(reg, m, o).Keys == reg.Keys
    ensures forall x :: x in reg ==>
              Unfiled(reg, m, o)[x] == Record(reg[x].name, if x == o then null else reg[x].parent,
                                              if x == m then reg[m].items - {reg[o].name} else reg[x].items)
  {
  }

  lemma RefiledAt(reg: map<Object, Record>, m: Object, o: Object)
    requires m in reg && o in reg && o != m
    ensures Refiled(reg, m, o).Keys == reg.Keys
    ensures forall x :: x in reg ==>
              Refiled(reg, m, o)[x] == Record(reg[x].name, if x == o then m else reg[x].parent,
                                              if x == m then reg[m].items[reg[o].name := o] else reg[x].items)
  {
  }

  lemma ReadyMeans(live: set<Object>, leaving: set<Object>)
    ensures Ready(live, leaving)
            <==> Sound(GraphOf(live)) && Filed(Registry(live), leaving) && Descends(Registry(live), Levels(live))
  {
    hide Sound;
    var reg := Registry(live);
    assert forall x :: x in live ==> reg[x].items == x.items && reg[x].parent == x.parent && reg[x].name == x.name;
    assert Consistent(live, leaving) <==> Filed(reg, leaving) && Descends(reg, Levels(live));
  }

  lemma ReadyIsSound(live: set<Object>, leaving: set<Object>)
    requires Ready(live, leaving)
    ensures Sound(GraphOf(live))
  {
  }

  lemma ItemsAreListed(m: Object, live: set<Object>)
    requires m in live && Ready(live, {})
    ensures forall k :: k in m.items ==>
              m.items[k] in live && m.items[k].name == k && m.items[k].parent == m && m.items[k].level < m.level
  {
    hide Sound;
  }

  lemma ItemIsListed(m: Object, k: string, live: set<Object>)
    requires m in live && k in m.items && Ready(live, {})
    ensures m.items[k] in live && m.items[k].name == k && m.items[k].parent == m && m.items[k].level < m.level
  {
    hide Sound;
  }

  lemma ItemIsBelow(m: Object, k: string, live: set<Object>, leaving: set<Object>)
    requires m in live && k in m.items && m.items[k] in live && Ready(live, leaving)
    ensures m.items[k].level < m.level
  {
    hide Sound;
  }

  lemma OwnerIsAbove(o: Object, live: set<Object>)
    requires o in live && Ready(live, {})
    ensures o.parent != null ==> o.parent in live && o.level < o.parent.level
                                 && o.name in o.parent.items && o.parent.items[o.name] == o
    ensures forall m, k :: m in live && k in m.items && m.items[k] == o ==> k == o.name && o.parent == m
  {
    hide Sound;
  }

  // The managers left torn when `m` forgets another object instead of one that `owner` lists.
  function Torn(m: Object, owner: Object?): set<Object> { if owner == null then {m} else {m, owner} }

  lemma OrphanKeepsFiled(reg: map<Object, Record>, levels: map<Object, nat>, o: Object, leaving: set<Object>)
    requires o in reg && Filed(reg, leaving) && reg[o].parent != null && reg[o].parent in leaving
    requires levels.Keys == reg.Keys && Descends(reg, levels)
    ensures Filed(reg[o := reg[o].(parent := null)], leaving) && Descends(reg[o := reg[o].(parent := null)], levels)
  {
    var r := reg[o := reg[o].(parent := null)];
    forall x | x in r && r[x].parent != null && r[x].parent !in leaving ensures Lists(r, r[x].parent, x) {
      assert Lists(reg, reg[x].parent, x);
    }
  }

  lemma RefiledFiled(reg: map<Object, Record>, m: Object, o: Object)
    requires m in reg && o in reg && o != m && Filed(reg, {}) && reg[o].name !in reg[m].items
    ensures Filed(Refiled(reg, m, o), {}) <==> reg[o].parent == null
  {
    RefiledListing(reg, m, o);
    RefiledEntries(reg, m, o);
    var r := Refiled(reg, m, o);
    hide Refiled, Lists;
  }

  lemma RefiledEntries(reg: map<Object, Record>, m: Object, o: Object)
    requires m in reg && o in reg && o != m && Filed(reg, {}) && reg[o].name !in reg[m].items
    ensures var r := Refiled(reg, m, o);
            && r.Keys == reg.Keys && r[o].parent == m
            && (reg[o].parent == null ==> Entries(r))
            && (reg[o].parent != null ==>
                 reg[o].parent in r && reg[o].name in r[reg[o].parent].items
                 && r[reg[o].parent].items[reg[o].name] == o && reg[o].parent != m)
  {
    if reg[o].parent != null {
      assert Lists(reg, reg[o].parent, o);
      RefiledAt(reg, m, o);
      hide Refiled, Filed;
    } else {
      UnlistedEntries(reg, m, o);
    }
  }

  // Every entry of every manager is in its place.
  ghost predicate Entries(reg: map<Object, Record>) {
    forall x, k :: x in reg && k in reg[x].items ==>
      reg[x].items[k] in reg && reg[reg[x].items[k]].name == k && reg[reg[x].items[k]].parent == x
  }

  lemma UnlistedEntries(reg: map<Object, Record>, m: Object, o: Object)
    requires m in reg && o in reg && o != m && Entries(reg) && reg[o].parent == null
    ensures Entries(Refiled(reg, m, o))
  {
    assert forall x, k :: x in reg && k in reg[x].items ==> reg[x].items[k] != o;
    RefiledAt(reg, m, o);
    hide Refiled;
  }

  lemma RefiledListing(reg: map<Object, Record>, m: Object, o: Object)
    requires m in reg && o in reg && o != m && Filed(reg, {}) && reg[o].name !in reg[m].items
    ensures var r := Refiled(reg, m, o);
            forall x :: x in r && r[x].parent != null ==> Lists(r, r[x].parent, x)
  {
    var r := Refiled(reg, m, o);
    forall x | x in r && r[x].parent != null ensures Lists(r, r[x].parent, x) {
      assert x != o ==> Lists(reg, reg[x].parent, x);
    }
  }

  lemma RefiledDescends(reg: map<Object, Record>, levels: map<Object, nat>, m: Object, o: Object)
    requires m in reg && o in reg && o != m && m.isManager && levels.Keys == reg.Keys
    requires Descends(reg, levels) && levels[o] < levels[m]
    ensures Descends(Refiled(reg, m, o), levels)
  {
  }

  lemma UnfiledDescends(reg: map<Object, Record>, levels: map<Object, nat>, m: Object, o: Object)
    requires m in reg && o in reg && levels.Keys == reg.Keys && Descends(reg, levels)
    ensures Descends(Unfiled(reg, m, o), levels)
  {
  }

  // An entry is taken out of `m` under the name of `o`, which has no parent then.
  lemma UnfiledFiled(reg: map<Object, Record>, m: Object, o: Object)
    requires m in reg && o in reg && Filed(reg, {}) && reg[o].name in reg[m].items
    ensures Filed(Unfiled(reg, m, o), {}) <==> reg[m].items[reg[o].name] == o
    ensures Filed(Unfiled(reg, m, o), Torn(m, reg[o].parent))
  {
    UnfiledListing(reg, m, o);
    UnfiledEntries(reg, m, o);
    var r := Unfiled(reg, m, o);
    hide Unfiled, Lists;
  }

  lemma UnfiledEntries(reg: map<Object, Record>, m: Object, o: Object)
    requires m in reg && o in reg && Filed(reg, {}) && reg[o].name in reg[m].items
    ensures var r := Unfiled(reg, m, o);
            && r.Keys == reg.Keys && r[o].parent == null
            && (forall x, k :: x in r && k in r[x].items ==>
                 r[x].items[k] in r && r[r[x].items[k]].name == k && (r[x].items[k] != o ==> r[r[x].items[k]].parent == x))
            && (forall x, k :: x in r && k in r[x].items && r[x].items[k] == o ==> x == reg[o].parent && x != m)
  {
  }

  lemma UnfiledListing(reg: map<Object, Record>, m: Object, o: Object)
    requires m in reg && o in reg && Filed(reg, {}) && reg[o].name in reg[m].items
    ensures var r, other := Unfiled(reg, m, o), reg[m].items[reg[o].name];
            && other in reg && reg[other].parent == m && (other != o ==> r[other].parent == m && !Lists(r, m, other))
            && forall x :: x in r && r[x].parent != null ==> x == other || Lists(r, r[x].parent, x)
  {
    var r, other := Unfiled(reg, m, o), reg[m].items[reg[o].name];
    forall x | x in r && r[x].parent != null ensures x == other || Lists(r, r[x].parent, x) {
      assert Lists(reg, reg[x].parent, x);
    }
  }

  // Another object is in `m` under the name of `o`.
  ghost predicate Stranger(reg: map<Object, Record>, m: Object, o: Object)
    requires m in reg && o in reg
  {
    reg[o].name in reg[m].items && reg[m].items[reg[o].name] != o
  }

  // The managers left torn when an entry is taken out of `m` under the name of `o`.
  ghost function LeftTorn(reg: map<Object, Record>, m: Object, o: Object): set<Object>
    requires m in reg && o in reg
  {
    if Stranger(reg, m, o) then Torn(m, reg[o].parent) else {}
  }

  lemma StrangerIs(m: Object, o: Object, live: set<Object>)
    requires m in live && o in live
    ensures Stranger(Registry(live), m, o) <==> o.name in m.items && m.items[o.name] != o
  {
  }

  lemma TornIs(m: Object, o: Object, live: set<Object>)
    requires m in live && o in live
    ensures LeftTorn(Registry(live), m, o) == if Stranger(Registry(live), m, o) then Torn(m, o.parent) else {}
  {
    RecordsAre(live);
  }

  lemma UnlistedIsTorn(reg: map<Object, Record>, m: Object, o: Object)
    requires o in reg && reg[o].parent == m && !Lists(reg, m, o)
    ensures !Filed(reg, {})
  {
  }

  // The other one survives, and has a manager that does not list it.
  lemma StaysTorn(m: Object, o: Object, live: set<Object>, live': set<Object>, was: map<Object, Record>)
    requires was.Keys == live && m in live && o in live && Filed(was, {})
    requires live' <= live && m in live' && (live' == live || DiedWith(o, live, live', was))
    requires Registry(live') == Rest(Unfiled(was, m, o), live') && Ready(live', LeftTorn(was, m, o))
    ensures Ready(live', {}) <==> !Stranger(was, m, o)
  {
    if Stranger(was, m, o) {
      var r, other := Unfiled(was, m, o), was[m].items[was[o].name];
      assert other in live' && was[other].name == was[o].name && was[other].parent == m;
      hide Filed, DiedWith, Registry, Sound;
      ReadyMeans(live', {});
      UnfiledAt(was, m, o);
      hide Unfiled;
      assert Registry(live')[other] == r[other] && Registry(live')[m] == r[m];
      UnlistedIsTorn(Registry(live'), m, other);
    }
  }

  // ---------------------------------------------------------------- containment

  // `m`, its manager, and so on.
  ghost predicate Above(above: set<Object>, m: Object, live: set<Object>)
    reads above`parent
  {
    m in above && above <= live && forall x :: x in above && x.parent != null ==> x.parent in above
  }

  lemma OutsideIsOther(o: Object, m: Object, live: set<Object>)
    requires Outside(o, m, live)
    ensures o != m
  {
  }

  // `m` is not the object, nor in it at any depth.
  ghost predicate Outside(o: Object, m: Object, live: set<Object>)
    reads live`parent
  {
    exists above :: above <= live && Above(above, m, live) && o !in above
  }

  predicate Blank(o: Object)
    reads o
  {
    o.parent == null && o.connections == map[] && o.items == map[]
  }

  lemma BlanksAreReady(live: set<Object>)
    requires forall o :: o in live ==> Blank(o)
    ensures Ready(live, {})
  {
  }

  lemma ConnectedHas(g: Graph, x: Object, signal: int, y: Object, action: Action)
    requires x in g && y in g && x != y && signal != DELETE
    ensures var r := Connected(g, x, signal, y, action); r.Keys == g.Keys && Has(r[x], signal, y) && Has(r[x], DELETE, y)
  {
  }

  // An object that is connected to another one and emits DELETE: the other one forgets it, but not
  // the other way round.
  method EmittingDeleteTears() returns (x: Object, y: Object)
    ensures Has(x.connections, 1, y) && !Has(y.connections, DELETE, x) && !Ready({x, y}, {})
  {
    ghost var live;
    x, y, live := TwoNew();
    ReadyIsSound(live, {});
    ConnectedHas(GraphOf(live), x, 1, y, Plain(0));
    hide *;
    x.Connect(1, y, Plain(0), live);
    EmitsAndTears(x, y, live);
  }

  method TwoNew() returns (x: Object, y: Object, ghost live: set<Object>)
    ensures fresh(x) && fresh(y) && x != y && live == {x, y} && Ready(live, {})
  {
    x := new Object("", false);
    y := new Object("", false);
    live := {x, y};
    BlanksAreReady(live);
  }

  // The same for any two objects that are hooked to each other.
  method EmitsAndTears(x: Object, y: Object, ghost live: set<Object>)
    requires x in live && y in live && x != y && Sound(GraphOf(live)) && Has(x.connections, DELETE, y)
    modifies live`connections
    ensures x.connections == old(x.connections) && !Has(y.connections, DELETE, x) && !Ready(live, {})
  {
    hide Sound, Due, EachOnce, InTurn, Ready;
    var _, _ := x.Emit(DELETE, live);
    assert GraphOf(live)[x] == x.connections && GraphOf(live)[y] == y.connections;
    if Ready(live, {}) {
      ReadyIsSound(live, {});
      assert false;
    }
  }

  // A manager and two objects of the same name, of which it lists the first.
  method FirstIsListed(name: string) returns (m: Object, first: Object, second: Object, ghost live: set<Object>)
    ensures fresh(m) && fresh(first) && fresh(second) && live == {m, first, second} && first != second
    ensures m.isManager && Ready(live, {}) && m.items == map[second.name := first] && first.parent == m
  {
    m, first, second, live := ThreeNew(name);
    hide Ready, Registry, GraphOf, Refiled;
    RecordsAre(live);
    RefiledAt(Registry(live), m, first);
    m.Enlist(first, live);
    RecordsAre(live);
  }

  method ThreeNew(name: string) returns (m: Object, first: Object, second: Object, ghost live: set<Object>)
    ensures fresh(m) && fresh(first) && fresh(second) && live == {m, first, second}
    ensures m != first && m != second && first != second && first.level < m.level && first.parent == null
    ensures m.isManager && Ready(live, {}) && m.items == map[] && first.name == second.name
  {
    m := new Object("", true);
    m.level := 1;
    first := new Object(name, false);
    second := new Object(name, false);
    live := {m, first, second};
    BlanksAreReady(live);
  }

  // Asked to let go of the second, it loses the first.
  method DetachingAStrangerTears(name: string) returns (m: Object, first: Object, second: Object)
    ensures m.items == map[] && first.parent == m && !Ready({m, first, second}, {})
  {
    ghost var live;
    m, first, second, live := FirstIsListed(name);
    RecordsAre(live);
    UnfiledAt(Registry(live), m, second);
    hide Ready, Registry, GraphOf, Unfiled;
    var found := m.Detach(second, live);
    RecordsAre(live);
  }

  // After the emission the tables of the others are as if the object had been removed.
  lemma WithoutTheDead(live: set<Object>, x: Object, was: Graph)
    requires x in live && was.Keys == live && GraphOf(live) == Emitted(was, x)
    ensures GraphOf(live - {x}) == Removed(was, {x})
  {
    var g := GraphOf(live);
    forall a | a in live && a != x ensures a.connections == Without(was[a], {x}) {
      assert g[a] == Emitted(was, x)[a];
    }
  }

  lemma NobodyLeaves(g: Graph, reg: map<Object, Record>, live: set<Object>)
    requires g.Keys == reg.Keys == live
    ensures Removed(g, live - live) == g && Rest(reg, live) == reg
  {
    RemovedNothing(g);
    assert live - live == {};
  }

  // Clearing the parent of the one that dies makes no difference to who dies with it.
  lemma DiedLoose(o: Object, live: set<Object>, live': set<Object>, now: map<Object, Record>, was: map<Object, Record>)
    requires now.Keys == was.Keys == live && DiedWith(o, live, live', now)
    requires forall x :: x in live && x != o ==> now[x].parent == was[x].parent
    ensures DiedWith(o, live, live', was)
  {
  }

  // The registry with `o` under its name in `m` and `m` as its parent.
  ghost function Refiled(reg: map<Object, Record>, m: Object, o: Object): map<Object, Record>
    requires m in reg && o in reg && o != m
  {
    reg[m := reg[m].(items := reg[m].items[reg[o].name := o])][o := reg[o].(parent := m)]
  }

  // The registry without the entry for `o` in `m` and without a parent of `o`.
  ghost function Unfiled(reg: map<Object, Record>, m: Object, o: Object): map<Object, Record>
    requires m in reg && o in reg
  {
    var cut := reg[m := reg[m].(items := reg[m].items - {reg[o].name})];
    cut[o := cut[o].(parent := null)]
  }

  // The same, from whichever manager lists it.
  ghost function Departed(reg: map<Object, Record>, o: Object): map<Object, Record>
    requires o in reg
  {
    if reg[o].parent != null && reg[o].parent in reg then Unfiled(reg, reg[o].parent, o) else reg
  }

  // The registry of those that are left.
  ghost function Rest(reg: map<Object, Record>, live: set<Object>): map<Object, Record> {
    map x | x in reg && x in live :: reg[x]
  }

  // A new object joins the live ones.
  lemma NewObjectKeepsReady(o: Object, live: set<Object>)
    requires Ready(live, {}) && o !in live
    requires Blank(o)
    ensures Ready(live + {o}, {})
  {
    var g, r := GraphOf(live), GraphOf(live + {o});
    forall x | x in r ensures TableOk(x, r[x], r.Keys) {
      forall s, y | s in r[x] && y in r[x][s] ensures EntryOk(x, r[x], s, y, r.Keys) {
        assert EntryOk(x, g[x], s, y, g.Keys);
      }
    }
  }

  // A manager that is being emptied: `all` were live when that began, with the tables and the
  // registry given, and only the items under `keys` are left.
  ghost predicate Emptying(m: Object, keys: set<string>, all: set<Object>, live: set<Object>, leaving: set<Object>,
                           tables: Graph, was: map<Object, Record>)
    reads m`items, m`level, all`name, all`parent, all`items, all`connections, all`level
  {
    && live <= all && m in live && Ready(live, leaving + {m})
    && Listed(m, m.items, keys, Registry(live))
    && tables.Keys == was.Keys == all && GraphOf(live) == Removed(tables, all - live)
    && DiedWithin(m, all, live, was) && Untouched(live, was)
  }

  lemma EmptyingStarts(m: Object, live: set<Object>, leaving: set<Object>)
    requires m in live && m !in leaving && Ready(live, leaving)
    ensures Emptying(m, m.items.Keys, live, live, leaving, GraphOf(live), Registry(live))
  {
    RemovedNothing(GraphOf(live));
    assert live - live == {};
    hide Removed, Sound, GraphOf;
  }

  // An item that is still to go.
  lemma EmptyingHas(m: Object, k: string, keys: set<string>, all: set<Object>, live: set<Object>, leaving: set<Object>,
                    tables: Graph, was: map<Object, Record>)
    requires k in keys && Emptying(m, keys, all, live, leaving, tables, was)
    ensures k in m.items && m.items[k] in live && m.items[k].parent == m
    ensures live <= all && m in live && Ready(live, leaving + {m}) && m.items[k].level < m.level
    ensures tables.Keys == was.Keys == all && GraphOf(live) == Removed(tables, all - live)
    ensures was[m.items[k]].parent == m && Listed(m, m.items, keys, Registry(live)) && DiedWithin(m, all, live, was)
    ensures Registry(live) == Rest(was, live)
  {
    RecordsAre(live);
    hide GraphOf, Removed, DiedWithin, Registry;
    RegistryIs(live, Rest(was, live));
    ItemIsBelow(m, k, live, leaving + {m});
  }

  // It is gone, with what it contained, and nothing else has changed.
  lemma EmptyingGoesOn(m: Object, k: string, keys: set<string>, all: set<Object>, live: set<Object>, live': set<Object>,
                       leaving: set<Object>, tables: Graph, was: map<Object, Record>)
    requires live' <= live <= all && tables.Keys == was.Keys == all && m in live' && Ready(live', leaving + {m})
    requires k in keys && k in m.items && m.items[k] in live && m.items[k] !in live' && m.items[k].level < m.level
    requires was[m.items[k]].parent == m
    requires GraphOf(live') == Removed(Removed(tables, all - live), live - live')
    requires DiedWithin(m, all, live, was) && Listed(m, m.items, keys, Rest(was, live))
    requires DiedWith(m.items[k], live, live', Rest(was, live)) && Untouched(live', Rest(was, live))
    ensures Emptying(m, keys - {k}, all, live', leaving, tables, was)
  {
    var before := Rest(was, live);
    RecordsAre(live');
    RemovedTwice(tables, all, live, live');
    hide GraphOf, Removed, Ready, Listed, DiedWithin, DiedWith, Registry;
    DiedTogether(m, m.items[k], all, live, live', was, before);
    ListShrinks(m, m.items, keys, k, before, Registry(live'));
  }

  lemma EmptyingEnds(m: Object, keys: set<string>, all: set<Object>, live: set<Object>, leaving: set<Object>,
                     tables: Graph, was: map<Object, Record>)
    requires Emptying(m, keys, all, live, leaving, tables, was) && !exists k :: k in keys
    ensures live <= all && m in live && Ready(live, leaving + {m}) && (forall x :: x in live ==> x.parent != m)
    ensures tables.Keys == was.Keys == all && GraphOf(live) == Removed(tables, all - live)
    ensures DiedWithin(m, all, live, was) && Untouched(live, was)
  {
    hide Ready, Removed, DiedWithin, GraphOf;
    assert forall x :: x in live ==> Registry(live)[x].parent == x.parent;
  }

  lemma PlainContainsNothing(o: Object, live: set<Object>, leaving: set<Object>)
    requires o in live && !o.isManager && Ready(live, leaving)
    requires o !in leaving
    ensures Ready(live, leaving + {o}) && forall x :: x in live ==> x.parent != o
  {
    hide Sound;
    assert forall x :: x in live && x.parent == o ==> x.name in o.items;
  }

  // The manager's items are exactly those under `keys`.
  ghost predicate Listed(m: Object, items: map<string, Object>, keys: set<string>, was: map<Object, Record>) {
    && (forall k :: k in keys ==> k in items && items[k] in was && was[items[k]].name == k && was[items[k]].parent == m)
    && (forall x :: x in was && was[x].parent == m ==> was[x].name in keys && was[x].name in items && items[was[x].name] == x)
  }

  lemma ListShrinks(m: Object, items: map<string, Object>, keys: set<string>, k: string, was: map<Object, Record>,
                    after: map<Object, Record>)
    requires Listed(m, items, keys, was) && k in keys && items[k].level < m.level
    requires after.Keys <= was.Keys && m in after && items[k] !in after
    requires DiedWith(items[k], was.Keys, after.Keys, was)
    requires forall x :: x in after ==> after[x] == was[x]
    ensures Listed(m, items, keys - {k}, after)
  {
  }

  // Name, parent and items of every live object.
  datatype Record = Record(name: string, parent: Object?, items: map<string, Object>)

  ghost function Registry(live: set<Object>): (r: map<Object, Record>)
    reads live`name, live`parent, live`items
    ensures r.Keys == live
  {
    map x | x in live :: Record(x.name, x.parent, x.items)
  }

  ghost predicate Untouched(live: set<Object>, was: map<Object, Record>)
    requires live <= was.Keys
    reads live`name, live`parent, live`items
  {
    forall x :: x in live ==> Record(x.name, x.parent, x.items) == was[x]
  }

  lemma RemovedNothing(g: Graph)
    ensures Removed(g, {}) == g
  {
    forall x | x in g ensures Without(g[x], {}) == g[x] {
      forall s | s in g[x] ensures g[x][s] - {} == g[x][s] {
      }
    }
  }

  lemma RemovedTwice(g: Graph, a: set<Object>, b: set<Object>, c: set<Object>)
    requires c <= b <= a
    ensures Removed(Removed(g, a - b), b - c) == Removed(g, a - c)
  {
    forall x | x in g ensures Without(Without(g[x], a - b), b - c) == Without(g[x], a - c) {
      WithoutTwice(g[x], a - b, b - c);
      assert (a - b) + (b - c) == a - c;
    }
  }

  ghost predicate Ready(live: set<Object>, leaving: set<Object>)
    reads live`name, live`parent, live`items, live`connections, live`level
  {
    Sound(GraphOf(live)) && Consistent(live, leaving)
  }

  // Nothing dies with `o` but what is below it, each with its container.
  ghost predicate DiedWith(o: Object, live: set<Object>, live': set<Object>, was: map<Object, Record>)
    reads o`level, live`level
    requires live <= was.Keys
  {
    forall x :: x in live && x !in live' ==>
      x == o || (was[x].parent != null && was[x].parent in live && was[x].parent !in live' && x.level < o.level)
  }

  ghost predicate DiedWithin(o: Object, live: set<Object>, live': set<Object>, was: map<Object, Record>)
    reads o`level, live`level
    requires live <= was.Keys
  {
    forall x :: x in live && x !in live' ==>
      && x.level < o.level && was[x].parent != null
      && (was[x].parent == o || (was[x].parent in live && was[x].parent !in live'))
  }

  lemma DiedWithItems(o: Object, live: set<Object>, rest: set<Object>, was: map<Object, Record>)
    requires rest <= live <= was.Keys && o in rest && DiedWithin(o, live, rest, was)
    ensures DiedWith(o, live, rest - {o}, was)
  {
  }

  lemma DiedTogether(m: Object, item: Object, all: set<Object>, live: set<Object>, live': set<Object>,
                     was: map<Object, Record>, now: map<Object, Record>)
    requires live' <= live <= all && was.Keys == all && now.Keys == live && m in live && item in live
    requires DiedWithin(m, all, live, was) && DiedWith(item, live, live', now)
    requires was[item].parent == m && item.level < m.level
    requires forall x :: x in live ==> now[x].parent == was[x].parent
    ensures DiedWithin(m, all, live', was) && m in live'
  {
  }

  // Every entry of a manager's map is a live object that has that key as its name and the manager
  // as its parent, and conversely; containment goes down in level. The managers `leaving`, on their
  // way out or torn, may list objects that are gone or elsewhere, and be named by objects they do
  // not list.
  ghost predicate Consistent(live: set<Object>, leaving: set<Object>)
    reads live`name, live`parent, live`items, live`level
  {
    && (forall m, k :: m in live && m !in leaving && k in m.items ==>
          m.items[k] in live && m.items[k].name == k && m.items[k].parent == m)
    && (forall m, k :: m in live && k in m.items ==> m.isManager && (m.items[k] in live ==> m.items[k].level < m.level))
    && (forall x :: x in live && x.parent != null && x.parent !in leaving ==>
          x.parent in live && x.name in x.parent.items && x.parent.items[x.name] == x)
  }
}
