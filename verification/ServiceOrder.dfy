/** Start order of services (scripts/orchestrate.py, resolve_service_order). */
module ServiceOrder {
  import opened Common

  /** The fields of Service the ordering reads. */
  datatype Service = Service(name: string, port: int, optional: bool, dependsOn: seq<string>)

  type Active = map<string, Service>

  /** active[a] and active[b] exist and a lists b among its dependencies. */
  predicate DependsOn(active: Active, a: string, b: string) {
    a in active && b in active && b in active[a].dependsOn
  }

  ghost predicate WellNamed(active: Active) {
    forall name :: name in active ==> active[name].name == name
  }

  /** A walk along dependency edges. */
  ghost predicate Path(active: Active, p: seq<string>) {
    forall i :: 0 <= i < |p| - 1 ==> DependsOn(active, p[i], p[i + 1])
  }

  /** b is a itself or a dependency of a, directly or through others. */
  ghost predicate Reaches(active: Active, a: string, b: string) {
    exists p: seq<string> :: p != [] && Path(active, p) && p[0] == a && p[|p| - 1] == b
  }

  /** No walk of at least one edge comes back to where it started. */
  ghost predicate Acyclic(active: Active) {
    forall p: seq<string> :: |p| >= 2 && Path(active, p) ==> p[0] != p[|p| - 1]
  }

  function Names(order: seq<Service>): (names: seq<string>)
    ensures |names| == |order| && forall i :: 0 <= i < |names| ==> names[i] == order[i].name
  {
    seq(|order|, i requires 0 <= i < |order| => order[i].name)
  }

  /** Every active dependency of a listed service is listed before it. */
  ghost predicate Topological(active: Active, names: seq<string>) {
    forall i, b :: 0 <= i < |names| && DependsOn(active, names[i], b) ==> b in names[..i]
  }

  // ---------------------------------------------------------------- the active services

  /** Python's dict comprehension: a later service of the same name replaces the earlier one. */
  function ActiveServices(services: seq<Service>, enabled: set<string>, skip: set<string>): (active: Active)
    ensures forall name :: name in active <==>
              name in enabled && name !in skip && exists s :: s in services && s.name == name
    ensures WellNamed(active)
    ensures forall name :: name in active ==> IsLast(services, active[name])
  {
    if services == [] then map[]
    else
      var s := services[|services| - 1];
      var front := services[..|services| - 1];
      assert services == front + [s];
      var active := ActiveServices(front, enabled, skip);
      LastOfMore(front, s);
      if s.name in enabled && s.name !in skip then active[s.name := s] else active
  }

  /** The last service of its name. */
  ghost predicate IsLast(services: seq<Service>, s: Service) {
    exists i :: 0 <= i < |services| && services[i] == s && forall j :: i < j < |services| ==> services[j].name != s.name
  }

  lemma LastOfMore(front: seq<Service>, s: Service)
    ensures IsLast(front + [s], s)
    ensures forall t :: IsLast(front, t) && t.name != s.name ==> IsLast(front + [s], t)
  {
    var services := front + [s];
    assert services[|front|] == s;
    forall t | IsLast(front, t) && t.name != s.name
      ensures IsLast(services, t)
    {
      var i :| 0 <= i < |front| && front[i] == t && forall j :: i < j < |front| ==> front[j].name != t.name;
      assert services[i] == t;
    }
  }

  /** The dict's values: names in the order they first appear. */
  function DictOrder(services: seq<Service>, active: Active): (values: seq<Service>)
    requires WellNamed(active)
    ensures forall s :: s in values ==> s.name in active && active[s.name] == s
  {
    if services == [] then []
    else
      var s := services[|services| - 1];
      var values := DictOrder(services[..|services| - 1], active);
      if s.name in active && active[s.name] !in values then values + [active[s.name]] else values
  }

  /** Where the name first appears, or past the end. */
  function FirstAt(services: seq<Service>, name: string): nat {
    if services == [] || services[0].name == name then 0 else 1 + FirstAt(services[1..], name)
  }

  lemma {:induction false} FirstAtIsFirst(services: seq<Service>, name: string)
    ensures var i := FirstAt(services, name);
            && i <= |services| && (i < |services| ==> services[i].name == name)
            && forall j :: 0 <= j < i ==> services[j].name != name
  {
    if services != [] && services[0].name != name {
      FirstAtIsFirst(services[1..], name);
    }
  }

  lemma {:induction false} FirstAtMore(front: seq<Service>, s: Service, name: string)
    ensures FirstAt(front + [s], name) == if FirstAt(front, name) < |front| then FirstAt(front, name)
                                          else if s.name == name then |front| else |front| + 1
    ensures FirstAt(front, name) <= |front|
  {
    if front == [] {
      assert (front + [s])[1..] == [];
    } else {
      FirstAtMore(front[1..], s, name);
      assert (front + [s])[1..] == front[1..] + [s];
    }
  }

  /** The active services whose name appears, each once, by first appearance. */
  ghost predicate ByAppearance(services: seq<Service>, active: Active, values: seq<Service>) {
    && (forall s :: s in values <==> s.name in active && active[s.name] == s && FirstAt(services, s.name) < |services|)
    && forall i, j :: 0 <= i < j < |values| ==> FirstAt(services, values[i].name) < FirstAt(services, values[j].name)
  }

  lemma {:induction false} DictOrderByAppearance(services: seq<Service>, active: Active)
    requires WellNamed(active)
    ensures ByAppearance(services, active, DictOrder(services, active))
  {
    if services != [] {
      var s, front := services[|services| - 1], services[..|services| - 1];
      DictOrderByAppearance(front, active);
      assert services == front + [s];
      hide ByAppearance;
      AppearanceStep(front, s, active, DictOrder(front, active));
    }
  }

  lemma AppearanceStep(front: seq<Service>, s: Service, active: Active, values: seq<Service>)
    requires WellNamed(active) && ByAppearance(front, active, values)
    ensures ByAppearance(front + [s], active,
                         if s.name in active && active[s.name] !in values then values + [active[s.name]] else values)
  {
    hide FirstAt;
    forall name: string
      ensures FirstAt(front + [s], name) == if FirstAt(front, name) < |front| then FirstAt(front, name)
                                            else if s.name == name then |front| else |front| + 1
      ensures FirstAt(front, name) <= |front|
    {
      FirstAtMore(front, s, name);
    }
    assert forall i :: 0 <= i < |values| ==> values[i] in values;
  }

  // ---------------------------------------------------------------- the sort

  /** (optional, port), False before True. */
  predicate KeyAtMost(s: Service, t: Service) {
    if s.optional == t.optional then s.port <= t.port else t.optional
  }

  function Insert(sorted: seq<Service>, s: Service): seq<Service> {
    if sorted == [] || KeyAtMost(sorted[|sorted| - 1], s) then sorted + [s]
    else Insert(sorted[..|sorted| - 1], s) + [sorted[|sorted| - 1]]
  }

  function SortByKey(values: seq<Service>): seq<Service> {
    if values == [] then [] else Insert(SortByKey(values[..|values| - 1]), values[|values| - 1])
  }

  ghost predicate Sorted(values: seq<Service>) {
    forall i, j :: 0 <= i <= j < |values| ==> KeyAtMost(values[i], values[j])
  }

  /** The values with exactly this key, in order. */
  function WithKey(values: seq<Service>, key: Service): seq<Service> {
    if values == [] then []
    else
      var last := values[|values| - 1];
      WithKey(values[..|values| - 1], key)
      + if last.optional == key.optional && last.port == key.port then [last] else []
  }

  lemma {:induction false} InsertKeeps(sorted: seq<Service>, s: Service)
    ensures multiset(Insert(sorted, s)) == multiset(sorted) + multiset{s}
    ensures forall t :: t in Insert(sorted, s) <==> t in sorted || t == s
  {
    var n := |sorted| - 1;
    if sorted != [] && !KeyAtMost(sorted[n], s) {
      InsertKeeps(sorted[..n], s);
      assert sorted == sorted[..n] + [sorted[n]];
    }
  }

  lemma {:induction false} InsertSorts(sorted: seq<Service>, s: Service)
    requires Sorted(sorted)
    ensures Sorted(Insert(sorted, s))
  {
    var n := |sorted| - 1;
    if sorted != [] && !KeyAtMost(sorted[n], s) {
      InsertSorts(sorted[..n], s);
      InsertKeeps(sorted[..n], s);
      var front := Insert(sorted[..n], s);
      forall i | 0 <= i < |front|
        ensures KeyAtMost(front[i], sorted[n])
      {
        assert front[i] in front;
      }
    }
  }

  lemma {:induction false} InsertIsStable(sorted: seq<Service>, s: Service, key: Service)
    ensures WithKey(Insert(sorted, s), key) == WithKey(sorted + [s], key)
  {
    var n := |sorted| - 1;
    if sorted != [] && !KeyAtMost(sorted[n], s) {
      var front, last := sorted[..n], sorted[n];
      InsertIsStable(front, s, key);
      WithKeyAppend(Insert(front, s), last, key);
      WithKeyAppend(front, s, key);
      WithKeyAppend(sorted, s, key);
    }
  }

  lemma WithKeyAppend(values: seq<Service>, s: Service, key: Service)
    ensures WithKey(values + [s], key)
         == WithKey(values, key) + if s.optional == key.optional && s.port == key.port then [s] else []
  {
    assert (values + [s])[..|values|] == values;
  }

  /** The sort orders by key, keeps every value, and keeps the order of values of equal key. */
  lemma {:induction false} SortIsStable(values: seq<Service>, key: Service)
    ensures Sorted(SortByKey(values)) && multiset(SortByKey(values)) == multiset(values)
    ensures WithKey(SortByKey(values), key) == WithKey(values, key)
  {
    if values != [] {
      var front, last := values[..|values| - 1], values[|values| - 1];
      SortIsStable(front, key);
      InsertSorts(SortByKey(front), last);
      InsertKeeps(SortByKey(front), last);
      InsertIsStable(SortByKey(front), last, key);
      hide Insert, Sorted, KeyAtMost;
      WithKeyAppend(SortByKey(front), last, key);
      WithKeyAppend(front, last, key);
      assert values == front + [last];
    }
  }

  lemma SortKeepsElements(values: seq<Service>)
    ensures forall s :: s in SortByKey(values) <==> s in values
  {
    forall s: Service
      ensures s in SortByKey(values) <==> s in values
    {
      SortIsStable(values, s);
      assert s in multiset(SortByKey(values)) <==> s in multiset(values);
    }
  }

  // ---------------------------------------------------------------- priority, in the services' fields

  /** The name a is first given before any b. */
  ghost predicate AppearsBefore(services: seq<Service>, a: string, b: string) {
    exists k :: 0 <= k < |services| && services[k].name == a && forall l :: 0 <= l <= k ==> services[l].name != b
  }

  /** A required service comes before an optional one, then the lower port, then the name that
      appears first. */
  ghost predicate NotLater(services: seq<Service>, s: Service, t: Service) {
    || (!s.optional && t.optional)
    || (s.optional == t.optional && s.port < t.port)
    || (s.optional == t.optional && s.port == t.port && (s == t || AppearsBefore(services, s.name, t.name)))
  }

  ghost predicate NoneLater(services: seq<Service>, values: seq<Service>) {
    forall i, j :: 0 <= i < j < |values| ==> NotLater(services, values[i], values[j])
  }

  lemma {:induction false} InsertNoneLater(services: seq<Service>, sorted: seq<Service>, s: Service)
    requires NoneLater(services, sorted) && forall t :: t in sorted ==> AppearsBefore(services, t.name, s.name)
    ensures NoneLater(services, Insert(sorted, s))
  {
    hide AppearsBefore;
    if sorted == [] {
    } else if KeyAtMost(sorted[|sorted| - 1], s) {
      AppendNoneLater(services, sorted, s);
    } else {
      hide NotLater, AppearsBefore;
      var n := |sorted| - 1;
      var front, last := sorted[..n], sorted[n];
      assert forall t :: t in front ==> t in sorted;
      assert forall i :: 0 <= i < n ==> front[i] == sorted[i] && NotLater(services, front[i], last);
      InsertNoneLater(services, front, s);
      InsertKeeps(front, s);
      KeyDecides(services, s, last);
      hide KeyAtMost;
      InsertedBefore(services, Insert(front, s), last, front, s);
    }
  }

  lemma KeyDecides(services: seq<Service>, s: Service, t: Service)
    requires !KeyAtMost(t, s)
    ensures NotLater(services, s, t)
  {}

  lemma AppendNoneLater(services: seq<Service>, sorted: seq<Service>, s: Service)
    requires NoneLater(services, sorted) && forall t :: t in sorted ==> AppearsBefore(services, t.name, s.name)
    requires sorted != [] && KeyAtMost(sorted[|sorted| - 1], s)
    ensures NoneLater(services, sorted + [s])
  {
    hide AppearsBefore;
    forall i | 0 <= i < |sorted|
      ensures NotLater(services, sorted[i], s)
    {
      assert sorted[i] in sorted;
    }
  }

  lemma InsertedBefore(services: seq<Service>, inserted: seq<Service>, last: Service, front: seq<Service>, s: Service)
    requires NoneLater(services, inserted) && NotLater(services, s, last)
    requires forall t :: t in inserted <==> t in front || t == s
    requires forall i :: 0 <= i < |front| ==> NotLater(services, front[i], last)
    ensures NoneLater(services, inserted + [last])
  {
    hide NotLater;
    forall i | 0 <= i < |inserted|
      ensures NotLater(services, inserted[i], last)
    {
      assert inserted[i] in inserted;
    }
  }

  lemma FirstAppearsBefore(services: seq<Service>, a: string, b: string)
    requires FirstAt(services, a) < FirstAt(services, b)
    ensures AppearsBefore(services, a, b)
  {
    FirstAtIsFirst(services, a);
    FirstAtIsFirst(services, b);
  }

  lemma {:induction false} SortNoneLater(services: seq<Service>, values: seq<Service>)
    requires forall i, j :: 0 <= i < j < |values| ==> AppearsBefore(services, values[i].name, values[j].name)
    ensures NoneLater(services, SortByKey(values))
  {
    if values != [] {
      hide AppearsBefore, NotLater, Insert, KeyAtMost;
      var front, last := values[..|values| - 1], values[|values| - 1];
      SortNoneLater(services, front);
      SortKeepsElements(front);
      InsertNoneLater(services, SortByKey(front), last);
    }
  }

  /** The sorted values of the dict, read in their fields. */
  lemma DictSortNoneLater(services: seq<Service>, active: Active)
    requires WellNamed(active)
    ensures NoneLater(services, SortByKey(DictOrder(services, active)))
  {
    var values := DictOrder(services, active);
    DictOrderByAppearance(services, active);
    hide FirstAt, AppearsBefore, SortByKey, DictOrder, NoneLater;
    forall i, j | 0 <= i < j < |values|
      ensures AppearsBefore(services, values[i].name, values[j].name)
    {
      FirstAppearsBefore(services, values[i].name, values[j].name);
    }
    SortNoneLater(services, values);
  }

  // ---------------------------------------------------------------- depth-first visits

  /** What holds between visits: the visited services are those resolved and those on the call
      stack, which form a path; nothing is resolved twice, or before all its dependencies were
      visited; without cycles the order so far is topological. */
  ghost predicate Consistent(active: Active, visited: set<string>, resolved: seq<Service>, stack: seq<string>) {
    && WellNamed(active)
    && (forall s :: s in resolved ==> s.name in active && active[s.name] == s)
    && Distinct(Names(resolved))
    && Distinct(stack) && Path(active, stack)
    && (forall name :: name in visited <==> name in stack || name in Names(resolved))
    && (forall name :: name in stack ==> name in active && name !in Names(resolved))
    && Closed(active, Names(resolved), visited)
    && (Acyclic(active) ==> Topological(active, Names(resolved)))
  }

  ghost predicate Closed(active: Active, names: seq<string>, visited: set<string>) {
    forall a, b :: a in names && DependsOn(active, a, b) ==> b in visited
  }

  lemma PushKeepsConsistent(active: Active, visited: set<string>, resolved: seq<Service>, stack: seq<string>,
                            name: string)
    requires Consistent(active, visited, resolved, stack)
    requires name in active && name !in visited
    requires stack != [] ==> DependsOn(active, stack[|stack| - 1], name)
    ensures Consistent(active, visited + {name}, resolved, stack + [name])
  {
    hide Acyclic, Topological, DependsOn;
  }

  lemma ResolveKeepsConsistent(active: Active, visited: set<string>, resolved: seq<Service>, stack: seq<string>,
                               svc: Service)
    requires Consistent(active, visited, resolved, stack + [svc.name]) && active[svc.name] == svc
    requires forall k :: 0 <= k < |svc.dependsOn| && svc.dependsOn[k] in active ==> svc.dependsOn[k] in visited
    requires Acyclic(active) ==>
               forall k :: 0 <= k < |svc.dependsOn| && svc.dependsOn[k] in active
                   ==> svc.dependsOn[k] in Names(resolved)
    ensures Consistent(active, visited, resolved + [svc], stack)
  {
    hide Acyclic;
    var deeper, names := stack + [svc.name], Names(resolved);
    assert Names(resolved + [svc]) == names + [svc.name];
    assert svc.name in deeper && deeper[..|stack|] == stack;
    assert forall i :: 0 <= i < |stack| ==> deeper[i] == stack[i];
    assert forall name :: name in deeper <==> name in stack || name == svc.name;
    if Acyclic(active) {
      forall i, b | 0 <= i < |names + [svc.name]| && DependsOn(active, (names + [svc.name])[i], b)
        ensures b in (names + [svc.name])[..i]
      {
        if i < |names| {
          assert (names + [svc.name])[..i] == names[..i];
        } else {
          assert (names + [svc.name])[..i] == names;
        }
      }
    }
  }

  /** One of the first i dependencies in the list reaches the name. */
  ghost predicate NeededByFirst(active: Active, deps: seq<string>, i: nat, name: string) {
    exists m :: 0 <= m < i <= |deps| && deps[m] in active && Reaches(active, deps[m], name)
  }

  /** Some front part of the order holds dependency k, unless a cycle keeps it back, and beyond what
      was visited before only what the dependencies up to k need. */
  ghost predicate CutAtDependency(active: Active, deps: seq<string>, k: nat, before: set<string>, order: seq<Service>) {
    && k < |deps|
    && exists n ::
         && 0 <= n <= |order|
         && (Acyclic(active) && deps[k] in active ==> deps[k] in Names(order[..n]))
         && forall name :: name in Names(order[..n]) ==> name in before || NeededByFirst(active, deps, k + 1, name)
  }

  lemma MoreAtDependency(active: Active, deps: seq<string>, k: nat, before: set<string>, order: seq<Service>,
                         more: seq<Service>)
    requires CutAtDependency(active, deps, k, before, order) && order <= more
    ensures CutAtDependency(active, deps, k, before, more)
  {
    hide NeededByFirst, Acyclic;
    var n :| 0 <= n <= |order| && (Acyclic(active) && deps[k] in active ==> deps[k] in Names(order[..n]))
      && forall name :: name in Names(order[..n]) ==> name in before || NeededByFirst(active, deps, k + 1, name);
    assert more[..n] == order[..n];
  }

  lemma VisitedAtDependency(active: Active, deps: seq<string>, i: nat, before: set<string>, sofar: set<string>,
                            visited: set<string>, resolved: seq<Service>, stack: seq<string>)
    requires i < |deps| && Consistent(active, visited, resolved, stack)
    requires forall name :: name in sofar ==> name in before || NeededByFirst(active, deps, i, name)
    requires forall name :: name in visited && name !in sofar ==> deps[i] in active && Reaches(active, deps[i], name)
    requires Acyclic(active) && deps[i] in active ==> deps[i] in Names(resolved)
    ensures CutAtDependency(active, deps, i, before, resolved)
    ensures forall name :: name in visited ==> name in before || NeededByFirst(active, deps, i + 1, name)
  {
    hide Reaches, Acyclic;
    forall name | name in visited
      ensures name in before || NeededByFirst(active, deps, i + 1, name)
    {
      if name in sofar && name !in before {
        var m :| 0 <= m < i && deps[m] in active && Reaches(active, deps[m], name);
      }
    }
    assert resolved[..|resolved|] == resolved;
  }

  class Resolver {
    const active: Active
    var visited: set<string>
    var resolved: seq<Service>

    constructor (active: Active)
      ensures this.active == active && visited == {} && resolved == []
    {
      this.active := active;
      visited, resolved := {}, [];
    }

    method Visit(svc: Service, ghost stack: seq<string>)
      requires Consistent(active, visited, resolved, stack) && svc.name in active && active[svc.name] == svc
      requires stack != [] ==> DependsOn(active, stack[|stack| - 1], svc.name)
      modifies `visited, `resolved
      ensures Consistent(active, visited, resolved, stack)
      ensures old(resolved) <= resolved && old(visited) <= visited && svc.name in visited
      ensures forall name :: name in visited && name !in old(visited) ==> Reaches(active, svc.name, name)
      ensures Acyclic(active) ==> svc.name in Names(resolved)
      ensures (forall d :: d in svc.dependsOn ==> d !in active) && svc.name !in old(visited)
              ==> resolved == old(resolved) + [svc]
      ensures svc.name !in old(visited) ==> forall k: nat :: k < |svc.dependsOn| ==>
                CutAtDependency(active, svc.dependsOn, k, old(visited) + {svc.name}, resolved)
      decreases active.Keys - visited, 0
    {
      if svc.name in visited {
        VisitedIsResolved(active, visited, resolved, stack, svc.name);
        return;
      }
      hide Consistent, Acyclic, DependsOn, Names, Reaches, CutAtDependency;
      PushKeepsConsistent(active, visited, resolved, stack, svc.name);
      visited := visited + {svc.name};
      ReachesItself(active, svc.name);
      assert svc.name in active.Keys - old(visited);
      VisitDependencies(svc, stack + [svc.name]);
      ResolveKeepsConsistent(active, visited, resolved, stack, svc);
      NamesAppend(resolved, svc);
      forall k: nat | k < |svc.dependsOn|
        ensures CutAtDependency(active, svc.dependsOn, k, old(visited) + {svc.name}, resolved + [svc])
      {
        MoreAtDependency(active, svc.dependsOn, k, old(visited) + {svc.name}, resolved, resolved + [svc]);
      }
      resolved := resolved + [svc];
    }

    /** The loop over depends_on. */
    method VisitDependencies(svc: Service, ghost stack: seq<string>)
      requires Consistent(active, visited, resolved, stack) && svc.name in active && active[svc.name] == svc
      requires stack != [] && stack[|stack| - 1] == svc.name
      modifies `visited, `resolved
      ensures Consistent(active, visited, resolved, stack)
      ensures old(resolved) <= resolved && old(visited) <= visited
      ensures forall k :: 0 <= k < |svc.dependsOn| && svc.dependsOn[k] in active ==> svc.dependsOn[k] in visited
      ensures forall name :: name in visited && name !in old(visited) ==> Reaches(active, svc.name, name)
      ensures Acyclic(active) ==>
                forall k :: 0 <= k < |svc.dependsOn| && svc.dependsOn[k] in active
                    ==> svc.dependsOn[k] in Names(resolved)
      ensures (forall d :: d in svc.dependsOn ==> d !in active) ==> resolved == old(resolved)
      ensures forall k: nat :: k < |svc.dependsOn| ==>
                CutAtDependency(active, svc.dependsOn, k, old(visited), resolved)
      decreases active.Keys - visited, 1
    {
      hide Consistent, Acyclic, DependsOn, Names, Reaches, CutAtDependency, NeededByFirst;
      Consistency(active, visited, resolved, stack);
      ghost var before := resolved;
      var i := 0;
      while i < |svc.dependsOn|
        invariant 0 <= i <= |svc.dependsOn|
        invariant Consistent(active, visited, resolved, stack)
        invariant before <= resolved && old(visited) <= visited
        invariant forall k :: 0 <= k < i && svc.dependsOn[k] in active ==> svc.dependsOn[k] in visited
        invariant forall name :: name in visited && name !in old(visited) ==> Reaches(active, svc.name, name)
        invariant Acyclic(active) ==>
                    forall k :: 0 <= k < i && svc.dependsOn[k] in active ==> svc.dependsOn[k] in Names(resolved)
        invariant (forall d :: d in svc.dependsOn ==> d !in active) ==> resolved == before
        invariant forall k: nat :: k < i ==> CutAtDependency(active, svc.dependsOn, k, old(visited), resolved)
        invariant forall name :: name in visited ==>
                    name in old(visited) || NeededByFirst(active, svc.dependsOn, i, name)
      {
        var depName := svc.dependsOn[i];
        ghost var already, listed := visited, resolved;
        if depName in active {
          ghost var sofar := resolved;
          EdgeToDependency(active, svc, i);
          Visit(active[depName], stack);
          MoreNames(sofar, resolved);
          ReachThrough(active, svc.name, depName);
        }
        VisitedAtDependency(active, svc.dependsOn, i, old(visited), already, visited, resolved, stack);
        forall k: nat | k < i
          ensures CutAtDependency(active, svc.dependsOn, k, old(visited), resolved)
        {
          MoreAtDependency(active, svc.dependsOn, k, old(visited), listed, resolved);
        }
        i := i + 1;
      }
    }
  }

  lemma ReachesItself(active: Active, a: string)
    ensures Reaches(active, a, a)
  {
    assert Path(active, [a]);
  }

  lemma ReachThrough(active: Active, a: string, b: string)
    requires DependsOn(active, a, b)
    ensures forall c :: Reaches(active, b, c) ==> Reaches(active, a, c)
  {
    hide DependsOn;
    forall c | Reaches(active, b, c)
      ensures Reaches(active, a, c)
    {
      var p :| p != [] && Path(active, p) && p[0] == b && p[|p| - 1] == c;
      var q := [a] + p;
      assert forall i :: 0 < i < |q| ==> q[i] == p[i - 1];
      assert Path(active, q) && q[|q| - 1] == c;
    }
  }

  /** A set of services closed under dependencies holds all it reaches. */
  lemma {:induction false} ClosedReach(active: Active, names: seq<string>, visited: set<string>, p: seq<string>)
    requires Closed(active, names, visited) && (forall name :: name in visited ==> name in names)
    requires p != [] && Path(active, p) && p[0] in visited
    ensures p[|p| - 1] in visited
    decreases |p|
  {
    if |p| > 1 {
      assert DependsOn(active, p[0], p[1]);
      ClosedReach(active, names, visited, p[1..]);
    }
  }

  lemma Consistency(active: Active, visited: set<string>, resolved: seq<Service>, stack: seq<string>)
    requires Consistent(active, visited, resolved, stack)
    ensures WellNamed(active)
  {}

  lemma EdgeToDependency(active: Active, svc: Service, i: nat)
    requires svc.name in active && active[svc.name] == svc && i < |svc.dependsOn| && svc.dependsOn[i] in active
    ensures DependsOn(active, svc.name, svc.dependsOn[i])
  {}

  lemma MoreNames(before: seq<Service>, after: seq<Service>)
    requires before <= after
    ensures forall name :: name in Names(before) ==> name in Names(after)
  {
    assert Names(before) == Names(after)[..|before|];
  }

  lemma NamesAppend(resolved: seq<Service>, svc: Service)
    ensures svc.name in Names(resolved + [svc])
  {
    assert Names(resolved + [svc])[|resolved|] == svc.name;
  }

  lemma VisitedIsResolved(active: Active, visited: set<string>, resolved: seq<Service>, stack: seq<string>,
                          name: string)
    requires Consistent(active, visited, resolved, stack) && name in visited
    requires stack != [] ==> DependsOn(active, stack[|stack| - 1], name)
    ensures Acyclic(active) ==> name in Names(resolved)
  {
    hide Acyclic;
    if name in stack {
      ClosingEdge(active, stack, name);
    }
  }

  /** An edge from the end of a path back to a node on it closes a cycle. */
  lemma ClosingEdge(active: Active, stack: seq<string>, name: string)
    requires Path(active, stack) && name in stack && DependsOn(active, stack[|stack| - 1], name)
    ensures !Acyclic(active)
  {
    var i :| 0 <= i < |stack| && stack[i] == name;
    var cycle := stack[i..] + [name];
    forall k | 0 <= k < |cycle| - 1
      ensures DependsOn(active, cycle[k], cycle[k + 1])
    {
      if k < |cycle| - 2 {
        assert DependsOn(active, stack[i + k], stack[i + k + 1]);
      }
    }
    assert Path(active, cycle) && cycle[0] == cycle[|cycle| - 1];
  }

  // ---------------------------------------------------------------- the order

  lemma {:induction false} PathGoesBack(active: Active, names: seq<string>, p: seq<string>, i: nat) returns (j: nat)
    requires Topological(active, names) && Distinct(names)
    requires |p| >= 2 && Path(active, p) && i < |names| && names[i] == p[0]
    ensures j < i && names[j] == p[|p| - 1]
    decreases |p|
  {
    assert DependsOn(active, names[i], p[1]);
    assert p[1] in names[..i];
    var k :| 0 <= k < i && names[k] == p[1];
    if |p| == 2 {
      j := k;
    } else {
      forall l | 0 <= l < |p[1..]| - 1
        ensures DependsOn(active, p[1..][l], p[1..][l + 1])
      {
        assert DependsOn(active, p[l + 1], p[l + 2]);
      }
      j := PathGoesBack(active, names, p[1..], k);
    }
  }

  lemma TopologicalMeansAcyclic(active: Active, names: seq<string>)
    requires Topological(active, names) && Distinct(names)
    requires forall name :: name in active ==> name in names
    ensures Acyclic(active)
  {
    forall p: seq<string> | |p| >= 2 && Path(active, p)
      ensures p[0] != p[|p| - 1]
    {
      assert DependsOn(active, p[0], p[1]);
      var i :| 0 <= i < |names| && names[i] == p[0];
      var j := PathGoesBack(active, names, p, i);
    }
  }

  /** Every active service is listed exactly once; dependencies come first exactly when the
      active ones have no cycle. */
  ghost predicate IsStartOrder(active: Active, order: seq<Service>) {
    && Distinct(Names(order))
    && (forall s :: s in order <==> s.name in active && active[s.name] == s)
    && (Topological(active, Names(order)) <==> Acyclic(active))
  }

  /** A name is one of the first i services or something they depend on. */
  ghost predicate NeededBy(active: Active, sorted: seq<Service>, i: nat, name: string) {
    exists j :: 0 <= j < i <= |sorted| && Reaches(active, sorted[j].name, name)
  }

  /** Some front part of the order consists of exactly what the first i services need. */
  ghost predicate CutAfter(active: Active, sorted: seq<Service>, i: nat, order: seq<Service>) {
    exists n :: 0 <= n <= |order| && forall name :: name in Names(order[..n]) <==> NeededBy(active, sorted, i, name)
  }

  /** Nothing starts before a service of higher priority, except what such a service needs. */
  ghost predicate ByPriority(active: Active, sorted: seq<Service>, order: seq<Service>) {
    forall i: nat :: i <= |sorted| ==> CutAfter(active, sorted, i, order)
  }

  lemma MoreResolved(active: Active, sorted: seq<Service>, i: nat, before: seq<Service>, after: seq<Service>)
    requires CutAfter(active, sorted, i, before) && before <= after
    ensures CutAfter(active, sorted, i, after)
  {
    var n :| 0 <= n <= |before| && forall name :: name in Names(before[..n]) <==> NeededBy(active, sorted, i, name);
    assert after[..n] == before[..n];
  }

  /** Between the visits of the list, exactly what the services so far need has been visited. */
  lemma VisitedIsNeeded(active: Active, visited: set<string>, resolved: seq<Service>, sorted: seq<Service>, i: nat)
    requires Consistent(active, visited, resolved, []) && i <= |sorted|
    requires forall k :: 0 <= k < i ==> sorted[k].name in visited
    requires forall name :: name in visited ==> NeededBy(active, sorted, i, name)
    ensures CutAfter(active, sorted, i, resolved)
  {
    assert resolved[..|resolved|] == resolved;
    forall name | NeededBy(active, sorted, i, name)
      ensures name in visited
    {
      var j :| 0 <= j < i && Reaches(active, sorted[j].name, name);
      var p :| p != [] && Path(active, p) && p[0] == sorted[j].name && p[|p| - 1] == name;
      ClosedReach(active, Names(resolved), visited, p);
    }
  }

  lemma NeededByMore(active: Active, sorted: seq<Service>, i: nat, before: set<string>, after: set<string>)
    requires i < |sorted|
    requires forall name :: name in before ==> NeededBy(active, sorted, i, name)
    requires forall name :: name in after && name !in before ==> Reaches(active, sorted[i].name, name)
    ensures forall name :: name in after ==> NeededBy(active, sorted, i + 1, name)
  {
    hide Reaches;
    forall name | name in after
      ensures NeededBy(active, sorted, i + 1, name)
    {
      if name in before {
        var j :| 0 <= j < i && Reaches(active, sorted[j].name, name);
      }
    }
  }

  /** A service starts before another only if it is needed by, or is itself, a service not later
      than that one by requiredness, port and appearance. */
  ghost predicate StartsInTime(services: seq<Service>, active: Active, order: seq<Service>) {
    forall i, j :: 0 <= i < j < |order| ==> NeededInTime(services, active, order[i].name, order[j])
  }

  ghost predicate NeededInTime(services: seq<Service>, active: Active, name: string, t: Service) {
    exists s: Service ::
      s.name in active && active[s.name] == s && NotLater(services, s, t) && Reaches(active, s.name, name)
  }

  lemma PriorityInTime(services: seq<Service>, active: Active, sorted: seq<Service>, order: seq<Service>)
    requires NoneLater(services, sorted) && ByPriority(active, sorted, order) && IsStartOrder(active, order)
    requires forall s :: s in sorted <==> s.name in active && active[s.name] == s
    ensures StartsInTime(services, active, order)
  {
    hide NotLater, Reaches, Acyclic, Topological, CutAfter;
    forall i, j | 0 <= i < j < |order|
      ensures NeededInTime(services, active, order[i].name, order[j])
    {
      assert order[j] in order;
      assert order[j] in sorted;
      var q :| 0 <= q < |sorted| && sorted[q] == order[j];
      assert CutAfter(active, sorted, q + 1, order);
      NeededBefore(active, sorted, q, order, i, j);
      var p :| 0 <= p <= q && Reaches(active, sorted[p].name, order[i].name);
      NotLaterSelf(services, order[j]);
      assert sorted[p] in sorted;
      assert NotLater(services, sorted[p], order[j]);
    }
  }

  lemma NotLaterSelf(services: seq<Service>, s: Service)
    ensures NotLater(services, s, s)
  {}

  lemma NeedsItself(active: Active, sorted: seq<Service>, q: nat)
    requires q < |sorted|
    ensures NeededBy(active, sorted, q + 1, sorted[q].name)
  {
    ReachesItself(active, sorted[q].name);
    hide Reaches;
  }

  lemma NeededBefore(active: Active, sorted: seq<Service>, q: nat, order: seq<Service>, i: nat, j: nat)
    requires i < j < |order| && q < |sorted| && sorted[q] == order[j] && Distinct(Names(order))
    requires CutAfter(active, sorted, q + 1, order)
    ensures NeededBy(active, sorted, q + 1, order[i].name)
  {
    NeedsItself(active, sorted, q);
    hide NeededBy;
    var n :| 0 <= n <= |order| && forall name :: name in Names(order[..n]) <==> NeededBy(active, sorted, q + 1, name);
    assert order[j].name in Names(order[..n]);
    InFront(order, n, j);
    hide Names;
    assert order[i].name in Names(order[..n]) by {
      assert Names(order[..n])[i] == order[i].name;
    }
  }

  lemma InFront(order: seq<Service>, n: nat, j: nat)
    requires n <= |order| && j < |order| && Distinct(Names(order)) && order[j].name in Names(order[..n])
    ensures j < n
  {
    var names := Names(order[..n]);
    var k :| 0 <= k < n && names[k] == order[j].name;
    assert Names(order)[k] == Names(order)[j];
  }

  lemma FirstStep(active: Active, p: seq<string>)
    requires p != [] && Path(active, p)
    ensures |p| == 1 || DependsOn(active, p[0], p[1])
  {}

  /** Without dependencies only a service itself needs it. */
  lemma NoneNeeded(services: seq<Service>, active: Active, order: seq<Service>)
    requires StartsInTime(services, active, order) && NoDependencies(active)
    requires forall s :: s in order ==> s.name in active && active[s.name] == s
    ensures NoneLater(services, order)
  {
    hide NotLater;
    forall i, j | 0 <= i < j < |order|
      ensures NotLater(services, order[i], order[j])
    {
      assert NeededInTime(services, active, order[i].name, order[j]);
      var s: Service :| s.name in active && active[s.name] == s && NotLater(services, s, order[j])
               && Reaches(active, s.name, order[i].name);
      var p :| p != [] && Path(active, p) && p[0] == s.name && p[|p| - 1] == order[i].name;
      FirstStep(active, p);
      assert order[i] in order;
    }
  }

  ghost predicate NoDependencies(active: Active) {
    forall a, b :: !DependsOn(active, a, b)
  }

  /** For every dependency graph the result is a start order of the active services, in which
      each starts in time; when none depends on another none is later than the next. */
  method ResolveServiceOrder(services: seq<Service>, enabled: set<string>, skip: set<string>)
    returns (order: seq<Service>)
    ensures var active := ActiveServices(services, enabled, skip);
            && IsStartOrder(active, order)
            && ByPriority(active, SortByKey(DictOrder(services, active)), order)
            && (NoDependencies(active) ==> order == SortByKey(DictOrder(services, active)))
            && StartsInTime(services, active, order)
            && (NoDependencies(active) ==> NoneLater(services, order))
  {
    var active := ActiveServices(services, enabled, skip);
    var sorted := SortByKey(DictOrder(services, active));
    SortedServices(services, active);
    order := VisitAll(active, sorted);
    DictSortNoneLater(services, active);
    hide IsStartOrder, ByPriority, NoneLater, StartsInTime, NoDependencies;
    OrderInTime(services, active, sorted, order);
  }

  lemma OrderInTime(services: seq<Service>, active: Active, sorted: seq<Service>, order: seq<Service>)
    requires NoneLater(services, sorted) && ByPriority(active, sorted, order) && IsStartOrder(active, order)
    requires forall s :: s in sorted <==> s.name in active && active[s.name] == s
    ensures StartsInTime(services, active, order) && (NoDependencies(active) ==> NoneLater(services, order))
  {
    PriorityInTime(services, active, sorted, order);
    hide StartsInTime, NoDependencies, NoneLater, Acyclic, Topological;
    if NoDependencies(active) {
      NoneNeeded(services, active, order);
    }
  }

  /** Visits every service of the sorted list in turn. */
  method VisitAll(active: Active, sorted: seq<Service>) returns (order: seq<Service>)
    requires WellNamed(active) && Distinct(Names(sorted))
    requires forall s :: s in sorted <==> s.name in active && active[s.name] == s
    ensures IsStartOrder(active, order)
    ensures ByPriority(active, sorted, order)
    ensures NoDependencies(active) ==> order == sorted
  {
    hide Consistent, IsStartOrder, Acyclic, Names, NoDependencies, NeededBy, CutAfter, Reaches;
    var r := new Resolver(active);
    StartsConsistent(active);
    var i := 0;
    while i < |sorted|
      invariant 0 <= i <= |sorted| && r.active == active
      invariant Consistent(active, r.visited, r.resolved, [])
      invariant forall k :: 0 <= k < i ==> sorted[k].name in r.visited
      invariant forall name :: name in r.visited ==> NeededBy(active, sorted, i, name)
      invariant forall k: nat :: k < i ==> CutAfter(active, sorted, k, r.resolved)
      invariant NoDependencies(active) ==> r.resolved == sorted[..i]
    {
      if NoDependencies(active) {
        NoEdges(active, sorted[i]);
        NotYetVisited(active, r.visited, r.resolved, sorted, i);
      }
      assert sorted[i] in sorted;
      VisitedIsNeeded(active, r.visited, r.resolved, sorted, i);
      ghost var visited, resolved := r.visited, r.resolved;
      r.Visit(sorted[i], []);
      NeededByMore(active, sorted, i, visited, r.visited);
      forall k: nat | k <= i
        ensures CutAfter(active, sorted, k, r.resolved)
      {
        MoreResolved(active, sorted, k, resolved, r.resolved);
      }
      i := i + 1;
    }
    VisitedIsNeeded(active, r.visited, r.resolved, sorted, i);
    order := r.resolved;
    AllResolved(active, r.visited, order, sorted);
  }

  /** The list that is visited holds the active services, each once. */
  lemma SortedServices(services: seq<Service>, active: Active)
    requires WellNamed(active) && forall name :: name in active ==> IsLast(services, active[name])
    ensures var sorted := SortByKey(DictOrder(services, active));
            Distinct(Names(sorted)) && forall s :: s in sorted <==> s.name in active && active[s.name] == s
  {
    var values := DictOrder(services, active);
    SortKeepsElements(values);
    DictOrderByAppearance(services, active);
    assert Distinct(Names(values));
    SortedDistinct(values);
    hide SortByKey, DictOrder, Names, FirstAt;
    forall s: Service | s.name in active && active[s.name] == s
      ensures s in values
    {
      var i :| 0 <= i < |services| && services[i] == s;
      FirstAtIsFirst(services, s.name);
    }
  }

  lemma StartsConsistent(active: Active)
    requires WellNamed(active)
    ensures Consistent(active, {}, [], [])
  {}

  lemma NoEdges(active: Active, svc: Service)
    requires svc.name in active && active[svc.name] == svc && NoDependencies(active)
    ensures forall d :: d in svc.dependsOn ==> d !in active
  {
    forall d | d in svc.dependsOn
      ensures d !in active
    {
      assert !DependsOn(active, svc.name, d);
    }
  }

  lemma NotYetVisited(active: Active, visited: set<string>, resolved: seq<Service>, sorted: seq<Service>, i: nat)
    requires Consistent(active, visited, resolved, []) && i < |sorted|
    requires resolved == sorted[..i] && Distinct(Names(sorted))
    ensures sorted[i].name !in visited
  {
    assert Names(sorted)[..i] == Names(resolved);
    assert Names(sorted)[i] == sorted[i].name;
  }

  lemma SortedDistinct(values: seq<Service>)
    requires Distinct(Names(values))
    ensures Distinct(Names(SortByKey(values)))
  {
    hide SortByKey, WithKey, Sorted;
    var sorted := SortByKey(values);
    forall i, j | 0 <= i < j < |sorted|
      ensures sorted[i].name != sorted[j].name
    {
      SortIsStable(values, sorted[i]);
      SortKeepsElements(values);
      assert sorted[i] in sorted && sorted[j] in sorted;
      var k :| 0 <= k < |values| && values[k] == sorted[i];
      var l :| 0 <= l < |values| && values[l] == sorted[j];
      OnceInMultiset(values, k);
      if k == l {
        TwiceInMultiset(sorted, i, j);
      }
      assert Names(values)[k] != Names(values)[l];
    }
  }

  lemma TwiceInMultiset(xs: seq<Service>, i: nat, j: nat)
    requires i < j < |xs| && xs[i] == xs[j]
    ensures multiset(xs)[xs[i]] >= 2
  {
    assert xs == xs[..j] + [xs[j]] + xs[j + 1..];
    assert xs[i] in xs[..j];
    assert xs[i] in multiset(xs[..j]);
  }

  lemma OnceInMultiset(xs: seq<Service>, k: nat)
    requires k < |xs| && Distinct(Names(xs))
    ensures multiset(xs)[xs[k]] == 1
  {
    assert xs == xs[..k] + [xs[k]] + xs[k + 1..];
    assert xs[k] !in xs[..k] by {
      forall i | 0 <= i < k
        ensures xs[i] != xs[k]
      {
        assert Names(xs)[i] != Names(xs)[k];
      }
    }
    assert xs[k] !in xs[k + 1..] by {
      forall i | k < i < |xs|
        ensures xs[i] != xs[k]
      {
        assert Names(xs)[k] != Names(xs)[i];
      }
    }
  }

  lemma AllResolved(active: Active, visited: set<string>, order: seq<Service>, sorted: seq<Service>)
    requires Consistent(active, visited, order, [])
    requires forall s :: s in sorted <==> s.name in active && active[s.name] == s
    requires forall k :: 0 <= k < |sorted| ==> sorted[k].name in visited
    ensures IsStartOrder(active, order)
  {
    hide Acyclic, Topological;
    forall name | name in active
      ensures name in Names(order) && active[name] in order
    {
      var s := active[name];
      assert s in sorted;
      var k :| 0 <= k < |sorted| && sorted[k] == s;
      assert name in visited;
      var i :| 0 <= i < |order| && Names(order)[i] == name;
      assert order[i] in order;
    }
    if Topological(active, Names(order)) {
      TopologicalMeansAcyclic(active, Names(order));
    }
  }
}
