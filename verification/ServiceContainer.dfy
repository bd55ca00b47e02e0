/** The lazy container of royells_v20_core/container.py.  A factory resolves some keys, in order, and then builds
    its own instance or raises. */
module ServiceContainer {
  import opened Prelude

  type Key = string
  type Instance = nat  // identity of an object

  datatype Factory = Factory(needs: seq<Key>, raises: bool)

  type Factories = map<Key, Factory>

  datatype Error = Closed | AlreadyRegistered | NotRegistered | FactoryRaised

  /** A rank that falls along every dependency; resolving a cycle does not terminate. */
  ghost predicate Acyclic(factories: Factories, rank: Key -> nat) {
    forall k, d :: k in factories && d in factories[k].needs ==> rank(d) < rank(k)
  }

  /** Everything the key needs, directly or not, is registered and does not raise. */
  ghost predicate Resolvable(have: set<Key>, factories: Factories, rank: Key -> nat, key: Key)
    requires Acyclic(factories, rank)
    decreases rank(key)
  {
    key in have
    || (key in factories && !factories[key].raises
        && forall d :: d in factories[key].needs ==> Resolvable(have, factories, rank, d))
  }

  predicate NoDuplicates(s: seq<Key>) { forall i, j :: 0 <= i < j < |s| ==> s[i] != s[j] }

  /** What a factory resolved was created before it. */
  predicate Topological(order: seq<Key>, factories: Factories) {
    forall i :: 0 <= i < |order| && order[i] in factories ==>
      forall d :: d in factories[order[i]].needs ==> d in order[..i]
  }

  /** What a container has created. */
  datatype Created = Created(instances: map<Key, Instance>, order: seq<Key>)

  /** The creation order lists every instance once, and everything after what it was built from. */
  ghost predicate Sound(c: Created, factories: Factories) {
    && NoDuplicates(c.order) && (forall k :: k in c.order <==> k in c.instances)
    && Topological(c.order, factories)
  }

  /** The order only grows, by factories of at most this rank that could be resolved from what was there. */
  ghost predicate Grown(a: Created, b: Created, factories: Factories, rank: Key -> nat, most: nat)
    requires Acyclic(factories, rank)
  {
    && Sound(b, factories)
    && a.order <= b.order
    && (forall k :: k in a.instances ==> k in b.instances && b.instances[k] == a.instances[k])
    && (forall k :: k in b.instances && k !in a.instances ==>
          k in factories && rank(k) <= most && Resolvable(a.instances.Keys, factories, rank, k))
  }

  lemma GrownOn(a: Created, b: Created, c: Created, factories: Factories, rank: Key -> nat, most: nat, less: nat)
    requires Acyclic(factories, rank) && less <= most
    requires Grown(a, b, factories, rank, most) && Grown(b, c, factories, rank, less)
    ensures Grown(a, c, factories, rank, most)
  {
    forall k | k in c.instances && k !in a.instances
      ensures k in factories && rank(k) <= most && Resolvable(a.instances.Keys, factories, rank, k)
    {
      if k !in b.instances { SameResolvable(a.instances.Keys, b.instances.Keys, factories, rank, k); }
    }
  }

  lemma TopologicalByOne(order: seq<Key>, key: Key, factories: Factories)
    requires Topological(order, factories)
    requires key in factories ==> forall d :: d in factories[key].needs ==> d in order
    ensures Topological(order + [key], factories)
  {
    var all := order + [key];
    assert all[..|order|] == order;
    assert forall i :: 0 <= i < |order| ==> all[..i] == order[..i];
  }

  lemma SoundByOne(c: Created, key: Key, instance: Instance, factories: Factories)
    requires Sound(c, factories) && key !in c.instances
    requires key in factories ==> forall d :: d in factories[key].needs ==> d in c.instances
    ensures Sound(Created(c.instances[key := instance], c.order + [key]), factories)
  {
    hide Topological;
    TopologicalByOne(c.order, key, factories);
    assert forall k :: k in c.order + [key] <==> k in c.order || k == key;
  }

  lemma GrownByOne(a: Created, b: Created, key: Key, instance: Instance, factories: Factories, rank: Key -> nat)
    requires Acyclic(factories, rank) && Grown(a, b, factories, rank, rank(key))
    requires key in factories && key !in b.instances && Resolvable(a.instances.Keys, factories, rank, key)
    requires forall d :: d in factories[key].needs ==> d in b.instances
    ensures Grown(a, Created(b.instances[key := instance], b.order + [key]), factories, rank, rank(key))
  {
    hide Resolvable, Sound, Acyclic;
    SoundByOne(b, key, instance, factories);
    assert a.order <= b.order <= b.order + [key];
  }

  function Instances(order: seq<Key>, instances: map<Key, Instance>): seq<Instance>
    requires forall k :: k in order ==> k in instances
  {
    if order == [] then [] else Instances(order[..|order| - 1], instances) + [instances[order[|order| - 1]]]
  }

  /** The instances in the reverse of their creation order, each the first time it is met. */
  function ClosingOrder(order: seq<Key>, instances: map<Key, Instance>, seen: set<Instance>): seq<Instance>
    requires forall k :: k in order ==> k in instances
    decreases |order|
  {
    if order == [] then []
    else
      var i := instances[order[|order| - 1]];
      if i in seen then ClosingOrder(order[..|order| - 1], instances, seen)
      else [i] + ClosingOrder(order[..|order| - 1], instances, seen + {i})
  }

  class Container {
    var factories: Factories
    var instances: map<Key, Instance>
    var creationOrder: seq<Key>
    var closed: bool
    var next: Instance  // the identity of the next object a factory builds
    ghost var built: seq<Key>  // the factories that have returned an instance, in order

    constructor ()
      ensures Valid() && !closed && factories == map[] && instances == map[] && built == []
    {
      factories, instances, creationOrder, closed, next := map[], map[], [], false, 0;
      built := [];
    }

    function Value(): Created
      reads this
    {
      Created(instances, creationOrder)
    }

    /** No factory has returned twice; a closed container is empty. */
    ghost predicate Valid()
      reads this
    {
      && Sound(Value(), factories) && NoDuplicates(built)
      && (!closed ==> forall k :: k in built ==> k in instances)
      && (closed ==> factories == map[] && instances == map[] && creationOrder == [])
    }

    method RegisterInstance(key: Key, instance: Instance) returns (error: Option<Error>)
      requires Valid()
      modifies this
      ensures Valid() && factories == old(factories) && closed == old(closed) && built == old(built)
      ensures error ==
        if closed then Some(Closed)
        else if key in old(factories) || key in old(instances) then Some(AlreadyRegistered)
        else None
      ensures error == None ==>
        instances == old(instances)[key := instance] && creationOrder == old(creationOrder) + [key]
      ensures error != None ==> instances == old(instances) && creationOrder == old(creationOrder)
    {
      if closed { return Some(Closed); }
      if key in factories || key in instances { return Some(AlreadyRegistered); }
      instances := instances[key := instance];
      creationOrder := creationOrder + [key];
      SoundByOne(old(Value()), key, instance, factories);
      return None;
    }

    method RegisterFactory(key: Key, factory: Factory) returns (error: Option<Error>)
      requires Valid()
      modifies this
      ensures Valid() && instances == old(instances) && creationOrder == old(creationOrder)
      ensures closed == old(closed) && built == old(built)
      ensures error ==
        if closed then Some(Closed)
        else if key in old(factories) || key in old(instances) then Some(AlreadyRegistered)
        else None
      ensures factories == if error == None then old(factories)[key := factory] else old(factories)
    {
      if closed { return Some(Closed); }
      if key in factories || key in instances { return Some(AlreadyRegistered); }
      factories := factories[key := factory];
      return None;
    }

    /** royells_v20_core/container.py, resolve: it succeeds exactly when everything needed is registered and does
        not raise, never runs a factory whose instance is there, and records each that returns. */
    method Resolve(key: Key, ghost rank: Key -> nat) returns (r: Result<Instance, Error>)
      requires Valid() && Acyclic(factories, rank)
      modifies this
      ensures Valid() && closed == old(closed) && factories == old(factories)
      ensures closed ==> r == Err(Error.Closed) && Value() == old(Value()) && built == old(built)
      ensures !closed ==> Grown(old(Value()), Value(), old(factories), rank, rank(key))
      ensures !closed ==>
        (old(creationOrder) <= creationOrder && built == old(built) + creationOrder[|old(creationOrder)|..])
      ensures !closed ==> (r.Ok? <==> Resolvable(old(instances).Keys, old(factories), rank, key))
      ensures !closed ==> (r.Ok? <==> key in instances) && (r.Ok? ==> r.value == instances[key])
      ensures !closed && r.Err? ==> r.error == NotRegistered || r.error == FactoryRaised
      decreases rank(key)
    {
      hide Sound, Grown, Resolvable, Acyclic, NoDuplicates;
      if closed { return Err(Error.Closed); }
      ResolvableCases(instances.Keys, factories, rank, key);
      GrownFromItself(Value(), factories, rank, rank(key));
      if key in instances { return Ok(instances[key]); }
      if key !in factories { return Err(NotRegistered); }
      var needs := factories[key].needs;
      ghost var start := Value();
      for i := 0 to |needs|
        invariant Valid() && !closed && factories == old(factories) && needs == factories[key].needs
        invariant Grown(start, Value(), factories, rank, rank(key)) && key !in instances
        invariant start.order <= creationOrder && built == old(built) + creationOrder[|start.order|..]
        invariant forall j :: 0 <= j < i ==>
          needs[j] in instances && Resolvable(start.instances.Keys, factories, rank, needs[j])
      {
        ghost var before := Value();
        var d := needs[i];
        var resolved := Resolve(d, rank);
        GrownOn(start, before, Value(), factories, rank, rank(key), rank(d));
        GrownFacts(before, Value(), factories, rank, rank(d));
        GrownResolvable(start, before, factories, rank, rank(key), d);
        BuiltOn(old(built), start.order, before.order, creationOrder);
        if resolved.Err? {
          assert !Resolvable(start.instances.Keys, factories, rank, d);
          return resolved;
        }
      }
      if factories[key].raises { return Err(FactoryRaised); }
      var instance := next;
      next := next + 1;
      GrownByOne(start, Value(), key, instance, factories, rank);
      BuiltOn(old(built), start.order, creationOrder, creationOrder + [key]);
      OneMore(built, key);
      instances := instances[key := instance];
      creationOrder := creationOrder + [key];
      built := built + [key];
      GrownFacts(start, Value(), factories, rank, rank(key));
      return Ok(instance);
    }

    /** royells_v20_core/container.py, close: the instances whose closer ran, in order. */
    method Close() returns (visited: seq<Instance>)
      requires Valid()
      modifies this
      ensures Valid() && closed && built == old(built)
      ensures instances == map[] && factories == map[] && creationOrder == []
      ensures visited == if old(closed) then [] else ClosingOrder(old(creationOrder), old(instances), {})
    {
      hide ClosingOrder, Topological, NoDuplicates;
      visited := [];
      if closed { return; }
      closed := true;
      var seen: set<Instance> := {};
      var n := |creationOrder|;
      assert creationOrder[..n] == creationOrder;
      NothingToClose(instances, {});
      while n > 0
        invariant closed && built == old(built) && NoDuplicates(built)
        invariant 0 <= n <= |creationOrder| && creationOrder == old(creationOrder)
          && instances == old(instances)
        invariant visited + ClosingOrder(creationOrder[..n], instances, seen)
          == ClosingOrder(creationOrder, instances, {})
      {
        n := n - 1;
        CloseLast(visited, creationOrder, n, instances, seen);
        var instance := instances[creationOrder[n]];
        if instance !in seen {
          seen := seen + {instance};
          visited := visited + [instance];
        }
      }
      NothingToClose(instances, seen);
      instances, factories, creationOrder := map[], map[], [];
      EmptyIsSound();
    }
  }

  lemma EmptyIsSound()
    ensures Sound(Created(map[], []), map[])
  {
  }

  lemma NothingToClose(instances: map<Key, Instance>, seen: set<Instance>)
    ensures ClosingOrder([], instances, seen) == []
  {
  }

  lemma CloseLast(visited: seq<Instance>, order: seq<Key>, n: nat, instances: map<Key, Instance>, seen: set<Instance>)
    requires n < |order| && forall k :: k in order ==> k in instances
    ensures var i := instances[order[n]];
      visited + ClosingOrder(order[..n + 1], instances, seen) ==
        if i in seen then visited + ClosingOrder(order[..n], instances, seen)
        else (visited + [i]) + ClosingOrder(order[..n], instances, seen + {i})
  {
    assert order[..n + 1][..n] == order[..n];
  }

  /** Instances that were themselves resolvable do not make more keys resolvable. */
  lemma {:induction false} SameResolvable(have: set<Key>, more: set<Key>, factories: Factories, rank: Key -> nat,
                                          key: Key)
    requires Acyclic(factories, rank) && have <= more
    requires forall k :: k in more ==> k in have || Resolvable(have, factories, rank, k)
    ensures Resolvable(more, factories, rank, key) <==> Resolvable(have, factories, rank, key)
    decreases rank(key)
  {
    if key in factories {
      forall d | d in factories[key].needs
        ensures Resolvable(more, factories, rank, d) <==> Resolvable(have, factories, rank, d)
      {
        SameResolvable(have, more, factories, rank, d);
      }
    }
  }

  lemma ResolvableCases(have: set<Key>, factories: Factories, rank: Key -> nat, key: Key)
    requires Acyclic(factories, rank)
    ensures key in have ==> Resolvable(have, factories, rank, key)
    ensures key !in have && key !in factories ==> !Resolvable(have, factories, rank, key)
    ensures key in factories ==> forall d :: d in factories[key].needs ==> rank(d) < rank(key)
    ensures key !in have && key in factories ==>
      (Resolvable(have, factories, rank, key) <==>
        !factories[key].raises && forall d :: d in factories[key].needs ==> Resolvable(have, factories, rank, d))
  {
  }

  lemma GrownFromItself(a: Created, factories: Factories, rank: Key -> nat, most: nat)
    requires Acyclic(factories, rank) && Sound(a, factories)
    ensures Grown(a, a, factories, rank, most)
  {
  }

  lemma BuiltOn(built: seq<Key>, a: seq<Key>, b: seq<Key>, c: seq<Key>)
    requires a <= b <= c
    ensures (built + b[|a|..]) + c[|b|..] == built + c[|a|..]
  {
  }

  lemma OneMore(s: seq<Key>, key: Key)
    requires NoDuplicates(s) && key !in s
    ensures NoDuplicates(s + [key])
  {
  }

  lemma GrownFacts(a: Created, b: Created, factories: Factories, rank: Key -> nat, most: nat)
    requires Acyclic(factories, rank) && Grown(a, b, factories, rank, most)
    ensures Sound(b, factories) && a.instances.Keys <= b.instances.Keys && a.order <= b.order
    ensures forall k :: k in b.instances && k !in a.instances ==> rank(k) <= most
  {
  }

  lemma GrownResolvable(a: Created, b: Created, factories: Factories, rank: Key -> nat, most: nat, key: Key)
    requires Acyclic(factories, rank) && Grown(a, b, factories, rank, most)
    ensures Resolvable(b.instances.Keys, factories, rank, key) <==> Resolvable(a.instances.Keys, factories, rank, key)
  {
    SameResolvable(a.instances.Keys, b.instances.Keys, factories, rank, key);
  }

  // ----- closing

  function Backwards<T>(s: seq<T>): seq<T> { if s == [] then [] else [s[|s| - 1]] + Backwards(s[..|s| - 1]) }

  ghost predicate DistinctInstances(order: seq<Key>, instances: map<Key, Instance>)
    requires forall k :: k in order ==> k in instances
  {
    forall i, j :: 0 <= i < j < |order| ==> instances[order[i]] != instances[order[j]]
  }

  /** With distinct instances every one is closed exactly once, in the reverse of the creation order. */
  lemma {:induction false} ClosesBackwards(order: seq<Key>, instances: map<Key, Instance>, seen: set<Instance>)
    requires (forall k :: k in order ==> k in instances) && DistinctInstances(order, instances)
    requires forall k :: k in order ==> instances[k] !in seen
    ensures ClosingOrder(order, instances, seen) == Backwards(Instances(order, instances))
    decreases |order|
  {
    if order != [] {
      var init, last := order[..|order| - 1], order[|order| - 1];
      assert forall i :: 0 <= i < |init| ==> init[i] == order[i] && order[i] in order;
      ClosesBackwards(init, instances, seen + {instances[last]});
      var all := Instances(init, instances) + [instances[last]];
      assert all[..|all| - 1] == Instances(init, instances);
    }
  }

  lemma {:induction false} BackwardsAt<T>(s: seq<T>, i: nat)
    requires i < |s|
    ensures |Backwards(s)| == |s| && Backwards(s)[|s| - 1 - i] == s[i]
    decreases |s|
  {
    var init := s[..|s| - 1];
    if |s| > 1 { BackwardsAt(init, if i < |s| - 1 then i else 0); }
    assert Backwards(s) == [s[|s| - 1]] + Backwards(init);
  }

  lemma {:induction false} InstancesAt(order: seq<Key>, instances: map<Key, Instance>, i: nat)
    requires (forall k :: k in order ==> k in instances) && i < |order|
    ensures |Instances(order, instances)| == |order| && Instances(order, instances)[i] == instances[order[i]]
    decreases |order|
  {
    if |order| > 1 { InstancesAt(order[..|order| - 1], instances, if i < |order| - 1 then i else 0); }
  }

  /** Then a service is closed before every service it was built from. */
  lemma DependentsCloseFirst(order: seq<Key>, factories: Factories, instances: map<Key, Instance>, k: Key, d: Key)
    returns (x: nat, y: nat)
    requires (forall k :: k in order ==> k in instances) && DistinctInstances(order, instances)
      && Topological(order, factories)
    requires k in order && k in factories && d in factories[k].needs
    ensures var closing := ClosingOrder(order, instances, {});
      x < y < |closing| && closing[x] == instances[k] && closing[y] == instances[d]
  {
    hide ClosingOrder, Backwards, Instances;
    var i :| 0 <= i < |order| && order[i] == k;
    var j :| 0 <= j < i && order[..i][j] == d;
    ClosesBackwards(order, instances, {});
    InstancesAt(order, instances, i);
    InstancesAt(order, instances, j);
    BackwardsAt(Instances(order, instances), i);
    BackwardsAt(Instances(order, instances), j);
    x, y := |order| - 1 - i, |order| - 1 - j;
  }
}
