/**
 * Ordering plugins by their declared dependencies (backend/plugin/core.py).
 *
 * The resolver is a depth-first search.  It is proved sound and complete: it
 * returns the plugins with every dependency first, and it fails exactly when
 * some dependency is missing or the graph has a cycle.
 */
module PluginOrder {
  import opened Wrappers

  datatype Plugin = Plugin(name: string, dependsOn: Option<seq<string>>)

  datatype OrderError = MissingDependency(plugin: string, dependency: string) | CircularDependency(path: seq<string>)

  function Deps(p: Plugin): seq<string> {
    if p.dependsOn.Some? then p.dependsOn.value else []
  }

  function Names(plugins: seq<Plugin>): set<string> {
    set p | p in plugins :: p.name
  }

  ghost predicate Declares(plugins: seq<Plugin>, p: Plugin, a: string, b: string) {
    p in plugins && p.name == a && b in Deps(p)
  }

  /** Some plugin of the first name declares the second as a dependency. */
  ghost predicate DependsOn(plugins: seq<Plugin>, a: string, b: string) {
    exists p :: Declares(plugins, p, a, b)
  }

  /** A path of declared dependencies that comes back to where it started. */
  ghost predicate IsCycle(plugins: seq<Plugin>, path: seq<string>) {
    && |path| >= 2 && path[0] == path[|path| - 1]
    && forall i :: 0 <= i < |path| - 1 ==> DependsOn(plugins, path[i], path[i + 1])
  }

  ghost predicate Misses(plugins: seq<Plugin>, a: string, b: string) {
    DependsOn(plugins, a, b) && b !in Names(plugins)
  }

  ghost predicate Resolvable(plugins: seq<Plugin>) {
    (forall a, b :: !Misses(plugins, a, b)) && (forall path :: !IsCycle(plugins, path))
  }

  ghost predicate Justified(plugins: seq<Plugin>, e: OrderError) {
    match e
    case MissingDependency(a, b) => Misses(plugins, a, b)
    case CircularDependency(path) => IsCycle(plugins, path)
  }

  ghost predicate UniqueNames(plugins: seq<Plugin>) {
    forall i, j :: 0 <= i < j < |plugins| ==> plugins[i].name != plugins[j].name
  }

  /** Every dependency of every plugin comes earlier in the list. */
  ghost predicate DependenciesFirst(plugins: seq<Plugin>) {
    forall i, d :: 0 <= i < |plugins| && d in Deps(plugins[i]) ==> d in Names(plugins[..i])
  }

  /** A list in dependency order rules out missing dependencies and cycles. */
  lemma OrderedIsResolvable(order: seq<Plugin>)
    requires UniqueNames(order) && DependenciesFirst(order)
    ensures Resolvable(order)
  {
    forall a, b | DependsOn(order, a, b) ensures b in Names(order) {
      var p :| Declares(order, p, a, b);
      var i :| 0 <= i < |order| && order[i] == p;
      assert b in Names(order[..i]);
    }
    forall path ensures !IsCycle(order, path) {
      if IsCycle(order, path) {
        RanksFall(order, path, |path| - 1);
      }
    }
  }

  lemma IndexOfName(order: seq<Plugin>, n: string) returns (i: nat)
    requires n in Names(order)
    ensures i < |order| && order[i].name == n
  {
    var p :| p in order && p.name == n;
    i :| 0 <= i < |order| && order[i] == p;
  }

  /** Along a path of dependencies the position in the order strictly falls. */
  lemma {:induction false} RanksFall(order: seq<Plugin>, path: seq<string>, k: nat)
    requires UniqueNames(order) && DependenciesFirst(order)
    requires 0 < k < |path| && forall i :: 0 <= i < |path| - 1 ==> DependsOn(order, path[i], path[i + 1])
    ensures exists a, b :: 0 <= b < a < |order| && order[a].name == path[0] && order[b].name == path[k]
  {
    assert DependsOn(order, path[k - 1], path[k]);
    var p :| Declares(order, p, path[k - 1], path[k]);
    var a :| 0 <= a < |order| && order[a] == p;
    var b := IndexOfName(order[..a], path[k]);
    if k > 1 {
      RanksFall(order, path, k - 1);
    }
  }

  /** Lists of the same plugins have the same dependencies. */
  lemma SameDependencies(plugins: seq<Plugin>, order: seq<Plugin>)
    requires forall p :: p in plugins <==> p in order
    ensures Resolvable(plugins) <==> Resolvable(order)
  {
    forall a, b ensures DependsOn(plugins, a, b) <==> DependsOn(order, a, b) {
      if p :| Declares(plugins, p, a, b) {
        assert Declares(order, p, a, b);
      }
      if p :| Declares(order, p, a, b) {
        assert Declares(plugins, p, a, b);
      }
    }
    assert Names(plugins) == Names(order);
    forall a, b ensures Misses(plugins, a, b) <==> Misses(order, a, b) {
    }
    forall path ensures IsCycle(plugins, path) <==> IsCycle(order, path) {
    }
  }

  // ---------------------------------------------------------------- the search

  type Registry = map<string, Plugin>

  /** plugin_map: later plugins replace earlier ones of the same name. */
  function RegistryOf(plugins: seq<Plugin>): Registry {
    if plugins == [] then map[]
    else RegistryOf(plugins[..|plugins| - 1])[plugins[|plugins| - 1].name := plugins[|plugins| - 1]]
  }

  lemma {:induction false} RegistryHolds(plugins: seq<Plugin>)
    ensures RegistryOf(plugins).Keys == Names(plugins)
    ensures forall n :: n in RegistryOf(plugins) ==>
      RegistryOf(plugins)[n] in plugins && RegistryOf(plugins)[n].name == n
  {
    if plugins != [] {
      var init, last := plugins[..|plugins| - 1], plugins[|plugins| - 1];
      RegistryHolds(init);
      assert plugins == init + [last];
      assert Names(plugins) == Names(init) + {last.name};
    }
  }

  /** No plugin of the same name comes earlier in the list. */
  ghost predicate IsFirst(plugins: seq<Plugin>, p: Plugin) {
    exists i :: 0 <= i < |plugins| && plugins[i] == p && p.name !in Names(plugins[..i])
  }

  /** The plugin that dependencies on its name find in plugin_map. */
  ghost predicate IsLast(plugins: seq<Plugin>, p: Plugin) {
    p.name in RegistryOf(plugins) && RegistryOf(plugins)[p.name] == p
  }

  /** It is the last one listed. */
  lemma {:induction false} LastListedIsFound(plugins: seq<Plugin>, i: nat)
    requires i < |plugins| && forall j :: i < j < |plugins| ==> plugins[j].name != plugins[i].name
    ensures IsLast(plugins, plugins[i])
  {
    if i < |plugins| - 1 {
      LastListedIsFound(plugins[..|plugins| - 1], i);
    }
  }

  // ---------------------------------------------------------------- which plugin of a name

  ghost predicate IsPath(order: seq<Plugin>, path: seq<string>) {
    |path| > 0 && forall i :: 0 <= i < |path| - 1 ==> DependsOn(order, path[i], path[i + 1])
  }

  ghost predicate Leads(order: seq<Plugin>, a: string, b: string) {
    exists path :: IsPath(order, path) && path[0] == a && path[|path| - 1] == b
  }

  /** The first name is listed before the second one is for the first time. */
  ghost predicate ListedBefore(plugins: seq<Plugin>, a: string, b: string) {
    exists i :: 0 <= i < |plugins| && plugins[i].name == a && b !in Names(plugins[..i + 1])
  }

  /** The dependencies of a name listed earlier lead to this one. */
  ghost predicate Preempted(plugins: seq<Plugin>, order: seq<Plugin>, n: string) {
    exists m :: ListedBefore(plugins, m, n) && Leads(order, m, n)
  }

  /** Where a name is repeated, a dependency of an earlier plugin takes the last one, the list itself the first. */
  ghost predicate Selected(plugins: seq<Plugin>, order: seq<Plugin>, p: Plugin) {
    p in plugins && if Preempted(plugins, order, p.name) then IsLast(plugins, p) else IsFirst(plugins, p)
  }

  /** The selected plugin of every name, dependencies first. */
  ghost predicate IsOrder(plugins: seq<Plugin>, order: seq<Plugin>) {
    && Names(order) == Names(plugins) && UniqueNames(order) && DependenciesFirst(order)
    && forall p :: p in order ==> Selected(plugins, order, p)
  }

  ghost predicate HasOrder(plugins: seq<Plugin>) {
    exists order :: IsOrder(plugins, order)
  }

  lemma LeadsOn(order: seq<Plugin>, p: Plugin, b: string, c: string)
    requires p in order && b in Deps(p) && Leads(order, b, c)
    ensures Leads(order, p.name, c)
  {
    var path :| IsPath(order, path) && path[0] == b && path[|path| - 1] == c;
    assert Declares(order, p, p.name, b);
    var longer := [p.name] + path;
    forall i | 0 <= i < |longer| - 1 ensures DependsOn(order, longer[i], longer[i + 1]) {
      assert i > 0 ==> longer[i] == path[i - 1] && DependsOn(order, path[i - 1], path[i]);
    }
    assert IsPath(order, longer);
  }

  lemma LeadsGrows(order: seq<Plugin>, grown: seq<Plugin>, a: string, b: string)
    requires order <= grown && Leads(order, a, b)
    ensures Leads(grown, a, b)
  {
    var path :| IsPath(order, path) && path[0] == a && path[|path| - 1] == b;
    forall i | 0 <= i < |path| - 1 ensures DependsOn(grown, path[i], path[i + 1]) {
      var p :| Declares(order, p, path[i], path[i + 1]);
      assert Declares(grown, p, path[i], path[i + 1]);
    }
    assert IsPath(grown, path);
  }

  /** What the search has established about the k-th placed plugin, whatever is placed after it. */
  ghost predicate Settled(plugins: seq<Plugin>, ordered: seq<Plugin>, k: nat)
    requires k < |ordered|
  {
    var p := ordered[k];
    || (IsLast(plugins, p) && Preempted(plugins, ordered, p.name))
    || (IsFirst(plugins, p) && forall a :: ListedBefore(plugins, a, p.name) ==> a in Names(ordered[..k]))
  }

  lemma SettledGrows(plugins: seq<Plugin>, ordered: seq<Plugin>, grown: seq<Plugin>, k: nat)
    requires k < |ordered| && ordered <= grown && Settled(plugins, ordered, k)
    ensures Settled(plugins, grown, k)
  {
    var n := ordered[k].name;
    if Preempted(plugins, ordered, n) {
      var m :| ListedBefore(plugins, m, n) && Leads(ordered, m, n);
      LeadsGrows(ordered, grown, m, n);
    }
    assert grown[..k] == ordered[..k];
  }

  lemma SettledIsSelected(plugins: seq<Plugin>, order: seq<Plugin>, k: nat)
    requires UniqueNames(order) && DependenciesFirst(order)
    requires k < |order| && order[k] in plugins && Settled(plugins, order, k)
    ensures Selected(plugins, order, order[k])
  {
    var n := order[k].name;
    if Preempted(plugins, order, n) && forall a :: ListedBefore(plugins, a, n) ==> a in Names(order[..k]) {
      var m :| ListedBefore(plugins, m, n) && Leads(order, m, n);
      var path :| IsPath(order, path) && path[0] == m && path[|path| - 1] == n;
      var i :| 0 <= i < |plugins| && plugins[i].name == m && n !in Names(plugins[..i + 1]);
      assert plugins[..i + 1][i] == plugins[i];
      RanksFall(order, path, |path| - 1);
      assert false;
    }
  }

  /** What placing one plugin adds: last of all the plugin, before it only what it depends on. */
  ghost predicate Adds(plugins: seq<Plugin>, before: seq<Plugin>, after: seq<Plugin>, plugin: Plugin) {
    before <= after &&
    if plugin.name in Names(before) then after == before else
      && |after| > |before| && after[|after| - 1] == plugin
      && forall k :: |before| <= k < |after| - 1 ==>
        IsLast(plugins, after[k]) && Leads(after, plugin.name, after[k].name)
  }

  ghost predicate FoundFrom(ordered: seq<Plugin>, deps: seq<string>, n: string) {
    exists d :: d in deps && Leads(ordered, d, n)
  }

  /** What visiting some dependencies adds. */
  ghost predicate AddsBelow(plugins: seq<Plugin>, before: seq<Plugin>, after: seq<Plugin>, deps: seq<string>) {
    && before <= after
    && forall k :: |before| <= k < |after| ==> IsLast(plugins, after[k]) && FoundFrom(after, deps, after[k].name)
  }

  lemma AddsNext(plugins: seq<Plugin>, before: seq<Plugin>, middle: seq<Plugin>, after: seq<Plugin>,
                 deps: seq<string>, p: Plugin)
    requires AddsBelow(plugins, before, middle, deps) && Adds(plugins, middle, after, p) && IsLast(plugins, p)
    ensures AddsBelow(plugins, before, after, deps + [p.name])
  {
    forall k | |before| <= k < |after|
      ensures IsLast(plugins, after[k]) && FoundFrom(after, deps + [p.name], after[k].name)
    {
      if k < |middle| {
        assert after[k] == middle[k] && FoundFrom(middle, deps, middle[k].name);
        var d :| d in deps && Leads(middle, d, middle[k].name);
        LeadsGrows(middle, after, d, after[k].name);
        assert d in deps + [p.name];
      } else {
        assert p.name in deps + [p.name];
        if k == |after| - 1 {
          assert IsPath(after, [p.name]);
        }
      }
    }
  }

  lemma AddsPlugin(plugins: seq<Plugin>, before: seq<Plugin>, middle: seq<Plugin>, p: Plugin)
    requires AddsBelow(plugins, before, middle, Deps(p)) && p.name !in Names(before)
    ensures Adds(plugins, before, middle + [p], p)
  {
    var after := middle + [p];
    forall k | |before| <= k < |after| - 1 ensures Leads(after, p.name, after[k].name) {
      assert after[k] == middle[k] && FoundFrom(middle, Deps(p), middle[k].name);
      var d :| d in Deps(p) && Leads(middle, d, middle[k].name);
      LeadsGrows(middle, after, d, after[k].name);
      LeadsOn(after, p, d, after[k].name);
    }
  }

  /** With the next listed plugin everything listed so far is placed. */
  lemma NextListed(plugins: seq<Plugin>, i: nat, before: seq<Plugin>, after: seq<Plugin>)
    requires i < |plugins| && before <= after && Names(plugins[..i]) <= Names(before)
    requires plugins[i].name in Names(after)
    ensures Names(plugins[..i + 1]) <= Names(after)
  {
    assert plugins[..i + 1] == plugins[..i] + [plugins[i]];
    assert Names(plugins[..i + 1]) == Names(plugins[..i]) + {plugins[i].name};
    forall p | p in before ensures p in after {
      var j :| 0 <= j < |before| && before[j] == p;
      assert after[j] == p;
    }
  }

  /** What is placed later has other names, and comes after everything placed before. */
  lemma NewNames(before: seq<Plugin>, after: seq<Plugin>, k: nat)
    requires before <= after && UniqueNames(after) && |before| <= k < |after|
    ensures after[k].name !in Names(before) && Names(before) <= Names(after[..k])
  {
    assert before == after[..|before|];
    forall p | p in before ensures p.name != after[k].name && p in after[..k] {
      var j :| 0 <= j < |before| && before[j] == p;
      assert after[j] == p && after[..k][j] == p;
    }
  }

  /** A visit from the list settles what it places, as everything listed earlier is placed by then. */
  lemma ListedSettles(plugins: seq<Plugin>, i: nat, before: seq<Plugin>, after: seq<Plugin>, k: nat)
    requires i < |plugins| && UniqueNames(after) && Adds(plugins, before, after, plugins[i])
    requires Names(plugins[..i]) <= Names(before)
    requires k < |after| && (k < |before| ==> Settled(plugins, before, k))
    ensures Settled(plugins, after, k)
  {
    if k < |before| {
      SettledGrows(plugins, before, after, k);
    } else {
      NewNames(before, after, k);
    }
  }

  // ---------------------------------------------------------------- the search follows every order

  /** As far as the search has come it agrees with an order. */
  ghost predicate Follows(order: seq<Plugin>, ordered: seq<Plugin>, visiting: seq<string>) {
    && (forall p :: p in ordered ==> p in order)
    && forall i :: 0 <= i < |visiting| - 1 ==> DependsOn(order, visiting[i], visiting[i + 1])
  }

  /** The next plugin agrees with an order too. */
  ghost predicate Agrees(order: seq<Plugin>, visited: set<string>, visiting: seq<string>, p: Plugin) {
    && (visiting != [] ==> DependsOn(order, visiting[|visiting| - 1], p.name))
    && (p.name in visited || p.name in visiting || p in order)
  }

  ghost predicate FollowsAll(plugins: seq<Plugin>, ordered: seq<Plugin>, visiting: seq<string>) {
    forall order :: IsOrder(plugins, order) ==> Follows(order, ordered, visiting)
  }

  ghost predicate AgreesWithAll(plugins: seq<Plugin>, visited: set<string>, visiting: seq<string>, p: Plugin) {
    forall order :: IsOrder(plugins, order) ==> Agrees(order, visited, visiting, p)
  }

  /** The search was started by a plugin that is listed before everything not yet met. */
  ghost predicate StartedFirst(plugins: seq<Plugin>, visited: set<string>, visiting: seq<string>) {
    visiting != [] ==> forall n :: n in Names(plugins) && n !in visited && n != visiting[0] ==>
      ListedBefore(plugins, visiting[0], n)
  }

  lemma NamedOnce(order: seq<Plugin>, p: Plugin, q: Plugin)
    requires UniqueNames(order) && p in order && q in order && p.name == q.name
    ensures p == q
  {
  }

  /** An order holds the plugin of the registry wherever a dependency leads the search. */
  lemma DependencyAgrees(plugins: seq<Plugin>, order: seq<Plugin>, ordered: seq<Plugin>, visited: set<string>,
                         visiting: seq<string>, p: Plugin, d: Plugin)
    requires IsOrder(plugins, order) && Follows(order, ordered, visiting) && StartedFirst(plugins, visited, visiting)
    requires p in order && d.name in Deps(p) && IsLast(plugins, d) && d.name in Names(plugins)
    requires visiting != [] && visiting[|visiting| - 1] == p.name
    ensures Agrees(order, visited, visiting, d)
  {
    assert Declares(order, p, p.name, d.name);
    if d.name !in visited && d.name !in visiting {
      var path := visiting + [d.name];
      assert IsPath(order, path) && path[0] == visiting[0] && path[|path| - 1] == d.name;
      assert Preempted(plugins, order, d.name);
      var q :| q in order && q.name == d.name;
      assert Selected(plugins, order, q);
    }
  }

  /** What is placed is closed under the dependencies of every order. */
  lemma {:induction false} LeadsStaysPlaced(order: seq<Plugin>, ordered: seq<Plugin>, path: seq<string>, k: nat)
    requires UniqueNames(order) && DependenciesFirst(ordered) && forall p :: p in ordered ==> p in order
    requires IsPath(order, path) && path[0] in Names(ordered) && k < |path|
    ensures path[k] in Names(ordered)
  {
    if k > 0 {
      LeadsStaysPlaced(order, ordered, path, k - 1);
      assert DependsOn(order, path[k - 1], path[k]);
      var p :| Declares(order, p, path[k - 1], path[k]);
      var i := IndexOfName(ordered, path[k - 1]);
      NamedOnce(order, p, ordered[i]);
      assert path[k] in Names(ordered[..i]);
    }
  }

  lemma NothingEarlierLeads(plugins: seq<Plugin>, order: seq<Plugin>, ordered: seq<Plugin>, i: nat)
    requires UniqueNames(order) && DependenciesFirst(ordered) && forall p :: p in ordered ==> p in order
    requires i < |plugins| && Names(plugins[..i]) <= Names(ordered) && plugins[i].name !in Names(ordered)
    ensures !Preempted(plugins, order, plugins[i].name)
  {
    var n := plugins[i].name;
    if m :| ListedBefore(plugins, m, n) && Leads(order, m, n) {
      var path :| IsPath(order, path) && path[0] == m && path[|path| - 1] == n;
      LeadsStaysPlaced(order, ordered, path, |path| - 1);
    }
  }

  /** The list itself leads to the first plugin of a name that nothing earlier leads to. */
  lemma ListedAgrees(plugins: seq<Plugin>, order: seq<Plugin>, ordered: seq<Plugin>, i: nat)
    requires IsOrder(plugins, order) && Follows(order, ordered, []) && DependenciesFirst(ordered)
    requires i < |plugins| && Names(plugins[..i]) <= Names(ordered)
    ensures Agrees(order, Names(ordered), [], plugins[i])
  {
    if plugins[i].name !in Names(ordered) {
      assert plugins[i].name in Names(plugins);
      var q :| q in order && q.name == plugins[i].name;
      NothingEarlierLeads(plugins, order, ordered, i);
    }
  }

  lemma CycleExcludesOrders(plugins: seq<Plugin>, ordered: seq<Plugin>, visited: set<string>,
                            visiting: seq<string>, p: Plugin, start: nat)
    requires FollowsAll(plugins, ordered, visiting) && AgreesWithAll(plugins, visited, visiting, p)
    requires start < |visiting| && visiting[start] == p.name
    ensures !HasOrder(plugins)
  {
    if order :| IsOrder(plugins, order) {
      assert Follows(order, ordered, visiting) && Agrees(order, visited, visiting, p);
      ClosesCycle(order, visiting, start);
      OrderedIsResolvable(order);
    }
  }

  /** The plugin is the selected one of its name in every order. */
  ghost predicate InAll(plugins: seq<Plugin>, p: Plugin) {
    forall order :: IsOrder(plugins, order) ==> p in order
  }

  lemma StackGrows(plugins: seq<Plugin>, ordered: seq<Plugin>, visited: set<string>, visiting: seq<string>, p: Plugin)
    requires FollowsAll(plugins, ordered, visiting) && AgreesWithAll(plugins, visited, visiting, p)
    requires p.name !in visited && p.name !in visiting
    ensures InAll(plugins, p) && FollowsAll(plugins, ordered, visiting + [p.name])
  {
    forall order | IsOrder(plugins, order) ensures p in order && Follows(order, ordered, visiting + [p.name]) {
      assert Follows(order, ordered, visiting) && Agrees(order, visited, visiting, p);
    }
  }

  lemma DependencyAgreesWithAll(plugins: seq<Plugin>, ordered: seq<Plugin>, visited: set<string>,
                                visiting: seq<string>, p: Plugin, d: Plugin)
    requires FollowsAll(plugins, ordered, visiting) && StartedFirst(plugins, visited, visiting) && InAll(plugins, p)
    requires d.name in Deps(p) && IsLast(plugins, d) && d.name in Names(plugins)
    requires visiting != [] && visiting[|visiting| - 1] == p.name
    ensures AgreesWithAll(plugins, visited, visiting, d)
  {
    forall order | IsOrder(plugins, order) ensures Agrees(order, visited, visiting, d) {
      DependencyAgrees(plugins, order, ordered, visited, visiting, p, d);
    }
  }

  lemma ListedAgreesWithAll(plugins: seq<Plugin>, ordered: seq<Plugin>, i: nat)
    requires FollowsAll(plugins, ordered, []) && DependenciesFirst(ordered)
    requires i < |plugins| && Names(plugins[..i]) <= Names(ordered)
    ensures AgreesWithAll(plugins, Names(ordered), [], plugins[i])
  {
    forall order | IsOrder(plugins, order) ensures Agrees(order, Names(ordered), [], plugins[i]) {
      ListedAgrees(plugins, order, ordered, i);
    }
  }

  /** Orders differ at most in the sequence of the plugins. */
  lemma OrdersAgree(plugins: seq<Plugin>, order: seq<Plugin>)
    requires IsOrder(plugins, order) && FollowsAll(plugins, order, [])
    ensures forall other :: IsOrder(plugins, other) ==> multiset(other) == multiset(order)
  {
    forall other | IsOrder(plugins, other) ensures multiset(other) == multiset(order) {
      assert Follows(other, order, []);
      CoveringHoldsAll(other, order);
      SamePluginsPermute(other, order);
    }
  }

  /** The finished part of the search: plugins already placed, dependencies first. */
  ghost predicate Placed(plugins: seq<Plugin>, visited: set<string>, ordered: seq<Plugin>) {
    && visited == Names(ordered) && UniqueNames(ordered) && DependenciesFirst(ordered)
    && forall p :: p in ordered ==> p in plugins
  }

  /** The open part of the search: a path of dependencies without repetition. */
  ghost predicate Open(plugins: seq<Plugin>, visiting: seq<string>) {
    && (forall i :: 0 <= i < |visiting| ==> visiting[i] in Names(plugins))
    && (forall i, j :: 0 <= i < j < |visiting| ==> visiting[i] != visiting[j])
    && (forall i :: 0 <= i < |visiting| - 1 ==> DependsOn(plugins, visiting[i], visiting[i + 1]))
  }

  function Members(names: seq<string>): set<string> {
    set n | n in names
  }

  /** The next plugin hangs on top of the stack. */
  ghost predicate Continues(plugins: seq<Plugin>, visiting: seq<string>, name: string) {
    name in Names(plugins) && (visiting != [] ==> DependsOn(plugins, visiting[|visiting| - 1], name))
  }

  /** What the search keeps: both parts, and their agreement with every order. */
  ghost predicate Sound(plugins: seq<Plugin>, visited: set<string>, visiting: seq<string>, ordered: seq<Plugin>) {
    && Placed(plugins, visited, ordered) && Open(plugins, visiting) && visited !! Members(visiting)
    && FollowsAll(plugins, ordered, visiting) && StartedFirst(plugins, visited, visiting)
  }

  /** The measure of the search. */
  lemma StackGetsDeeper(plugins: seq<Plugin>, visiting: seq<string>, name: string)
    requires name in Names(plugins) && name !in visiting
    ensures Names(plugins) - Members(visiting + [name]) < Names(plugins) - Members(visiting)
  {
    assert Members(visiting + [name]) == Members(visiting) + {name};
    assert name in Names(plugins) - Members(visiting);
  }

  lemma Pop(plugins: seq<Plugin>, visited: set<string>, visiting: seq<string>, ordered: seq<Plugin>, name: string)
    requires Sound(plugins, visited, visiting + [name], ordered)
    ensures Sound(plugins, visited, visiting, ordered) && name !in visited && name !in visiting
  {
    var longer := visiting + [name];
    assert longer[|visiting|] == name && Members(longer) == Members(visiting) + {name};
    forall i | 0 <= i < |visiting| ensures longer[i] == visiting[i] {
    }
    StackOnly(plugins, ordered, visiting, name);
  }

  lemma StackOnly(plugins: seq<Plugin>, ordered: seq<Plugin>, visiting: seq<string>, name: string)
    requires FollowsAll(plugins, ordered, visiting + [name])
    ensures FollowsAll(plugins, ordered, visiting)
  {
    forall order | IsOrder(plugins, order) ensures Follows(order, ordered, visiting) {
      var longer := visiting + [name];
      assert Follows(order, ordered, longer);
      forall i | 0 <= i < |visiting| - 1 ensures DependsOn(order, visiting[i], visiting[i + 1]) {
        assert DependsOn(order, longer[i], longer[i + 1]);
      }
    }
  }

  /** A path whose end depends on one of its members closes a cycle. */
  lemma ClosesCycle(plugins: seq<Plugin>, visiting: seq<string>, start: nat)
    requires start < |visiting| && IsPath(plugins, visiting)
    requires DependsOn(plugins, visiting[|visiting| - 1], visiting[start])
    ensures IsCycle(plugins, visiting[start..] + [visiting[start]])
  {
    var path := visiting[start..] + [visiting[start]];
    forall i | 0 <= i < |path| - 1 ensures DependsOn(plugins, path[i], path[i + 1]) {
      assert path[i] == visiting[start + i];
    }
  }

  /** A plugin whose dependencies are all placed may be placed next. */
  lemma Place(plugins: seq<Plugin>, visited: set<string>, ordered: seq<Plugin>, plugin: Plugin)
    requires Placed(plugins, visited, ordered) && plugin.name !in visited
    requires plugin in plugins && forall d :: d in Deps(plugin) ==> d in visited
    ensures Placed(plugins, visited + {plugin.name}, ordered + [plugin])
  {
    var grown := ordered + [plugin];
    assert Names(grown) == Names(ordered) + {plugin.name};
    forall i | 0 <= i < |ordered| ensures ordered[i].name != plugin.name {
      assert ordered[i] in ordered;
    }
    forall i | 0 <= i < |grown| ensures grown[..i] == ordered[..i] {
    }
    assert ordered[..|ordered|] == ordered;
  }

  /** The search state of resolve_plugin_order and its nested visit procedure. */
  class Resolution {
    ghost const plugins: seq<Plugin>
    const registry: Registry
    var visited: set<string>
    var visiting: seq<string>
    var ordered: seq<Plugin>

    ghost predicate Valid()
      reads this
    {
      registry == RegistryOf(plugins) && Sound(plugins, visited, visiting, ordered)
    }

    constructor (plugins: seq<Plugin>)
      ensures Valid() && this.plugins == plugins && visiting == [] && ordered == []
    {
      this.plugins := plugins;
      registry := RegistryOf(plugins);
      visited, visiting, ordered := {}, [], [];
    }

    /** The caller's side of a visit. */
    ghost predicate MayVisit(plugin: Plugin)
      reads this
    {
      && Valid() && plugin in plugins && Continues(plugins, visiting, plugin.name)
      && AgreesWithAll(plugins, visited, visiting, plugin)
      && StartedFirst(plugins, visited, visiting + [plugin.name])
    }

    method Visit(plugin: Plugin) returns (failure: Option<OrderError>)
      requires MayVisit(plugin)
      modifies this
      ensures failure.Some? ==> Justified(plugins, failure.value) && !HasOrder(plugins)
      ensures failure.None? ==>
        && Valid() && visiting == old(visiting)
        && plugin.name in visited && Adds(plugins, old(ordered), ordered, plugin)
      decreases Names(plugins) - Members(visiting), 1
    {
      if plugin.name in visited {
        return None;
      }
      if plugin.name in visiting {
        var start :| 0 <= start < |visiting| && visiting[start] == plugin.name;
        ClosesCycle(plugins, visiting, start);
        CycleExcludesOrders(plugins, ordered, visited, visiting, plugin, start);
        return Some(CircularDependency(visiting[start..] + [plugin.name]));
      }
      StackGrows(plugins, ordered, visited, visiting, plugin);
      if plugin.dependsOn.Some? {
        failure := VisitDependencies(plugin, plugin.dependsOn.value);
        if failure.Some? {
          return;
        }
      }
      PlaceNext(plugin, old(ordered));
      failure := None;
    }

    /** The dependencies of the plugin are placed, and it is next. */
    ghost predicate Ready(plugin: Plugin, before: seq<Plugin>)
      reads this
    {
      && Valid() && plugin in plugins && InAll(plugins, plugin)
      && plugin.name !in visited && plugin.name !in visiting && plugin.name !in Names(before)
      && AddsBelow(plugins, before, ordered, Deps(plugin)) && forall d :: d in Deps(plugin) ==> d in visited
    }

    method PlaceNext(plugin: Plugin, ghost before: seq<Plugin>)
      requires Ready(plugin, before)
      modifies this`visited, this`ordered
      ensures Valid() && plugin.name in visited && Adds(plugins, before, ordered, plugin)
    {
      Place(plugins, visited, ordered, plugin);
      AddsPlugin(plugins, before, ordered, plugin);
      visited := visited + {plugin.name};
      ordered := ordered + [plugin];
    }

    /** The loop over depends_on, with the plugin on the stack. */
    method VisitDependencies(plugin: Plugin, deps: seq<string>) returns (failure: Option<OrderError>)
      requires MayVisit(plugin) && plugin.name !in visited && plugin.name !in visiting && deps == Deps(plugin)
      requires InAll(plugins, plugin) && FollowsAll(plugins, ordered, visiting + [plugin.name])
      modifies this
      ensures failure.Some? ==> Justified(plugins, failure.value) && !HasOrder(plugins)
      ensures failure.None? ==> visiting == old(visiting) && Ready(plugin, old(ordered))
      decreases Names(plugins) - Members(visiting), 0
    {
      ghost var stack := visiting;
      StackGetsDeeper(plugins, visiting, plugin.name);
      Enter(plugin);
      for i := 0 to |deps|
        invariant Below(plugin, stack, old(ordered), deps[..i])
      {
        failure := VisitDependency(plugin, deps[i], stack, old(ordered), deps[..i]);
        if failure.Some? {
          return;
        }
        assert deps[..i + 1] == deps[..i] + [deps[i]];
      }
      assert deps[..|deps|] == deps;
      Leave(plugin, stack, old(ordered));
      failure := None;
    }

    method Enter(plugin: Plugin)
      requires MayVisit(plugin) && plugin.name !in visited && plugin.name !in visiting
      requires InAll(plugins, plugin) && FollowsAll(plugins, ordered, visiting + [plugin.name])
      modifies this`visiting
      ensures Below(plugin, old(visiting), ordered, [])
    {
      visiting := visiting + [plugin.name];
    }

    method Leave(plugin: Plugin, ghost stack: seq<string>, ghost before: seq<Plugin>)
      requires Below(plugin, stack, before, Deps(plugin))
      modifies this`visiting
      ensures visiting == stack && Ready(plugin, before)
    {
      Pop(plugins, visited, stack, ordered, plugin.name);
      visiting := visiting[..|visiting| - 1];
    }

    /** The plugin is on top of the stack, and some of its dependencies are placed. */
    ghost predicate Below(plugin: Plugin, stack: seq<string>, before: seq<Plugin>, done: seq<string>)
      reads this
    {
      && Valid() && visiting == stack + [plugin.name] && plugin in plugins && InAll(plugins, plugin)
      && plugin.name !in Names(before)
      && AddsBelow(plugins, before, ordered, done) && forall d :: d in done ==> d in visited
    }

    /** One turn of the loop over depends_on. */
    method VisitDependency(plugin: Plugin, dep: string, ghost stack: seq<string>, ghost before: seq<Plugin>,
                           ghost done: seq<string>) returns (failure: Option<OrderError>)
      requires Below(plugin, stack, before, done) && dep in Deps(plugin)
      modifies this
      ensures failure.Some? ==> Justified(plugins, failure.value) && !HasOrder(plugins)
      ensures failure.None? ==> Below(plugin, stack, before, done + [dep])
      decreases Names(plugins) - Members(visiting), 2
    {
      RegistryHolds(plugins);
      assert Declares(plugins, plugin, plugin.name, dep);
      if dep !in registry {
        assert Misses(plugins, plugin.name, dep);
        return Some(MissingDependency(plugin.name, dep));
      }
      DependencyAgreesWithAll(plugins, ordered, visited, visiting, plugin, registry[dep]);
      ghost var middle := ordered;
      failure := Visit(registry[dep]);
      if failure.None? {
        AddsNext(plugins, before, middle, ordered, done, registry[dep]);
      }
    }
  }

  // ---------------------------------------------------------------- the whole order

  /** A list without repeated names that covers one with unique names holds the same plugins. */
  lemma CoveringHoldsAll(plugins: seq<Plugin>, order: seq<Plugin>)
    requires UniqueNames(plugins) && Names(order) == Names(plugins) && forall p :: p in order ==> p in plugins
    ensures forall p :: p in plugins <==> p in order
  {
    forall p | p in plugins ensures p in order {
      var i :| 0 <= i < |plugins| && plugins[i] == p;
      assert p.name in Names(order);
      var q :| q in order && q.name == p.name;
      var j :| 0 <= j < |plugins| && plugins[j] == q;
    }
  }

  /** Two lists without repeated names that hold the same plugins are permutations of each other. */
  lemma {:induction false} SamePluginsPermute(a: seq<Plugin>, b: seq<Plugin>)
    requires UniqueNames(a) && UniqueNames(b) && forall p :: p in a <==> p in b
    ensures multiset(a) == multiset(b)
  {
    CountsAtMostOne(a);
    CountsAtMostOne(b);
    forall p ensures multiset(a)[p] == multiset(b)[p] {
      assert p in a <==> p in multiset(a);
      assert p in b <==> p in multiset(b);
    }
  }

  lemma {:induction false} CountsAtMostOne(a: seq<Plugin>)
    requires UniqueNames(a)
    ensures forall p :: multiset(a)[p] <= 1
  {
    if a != [] {
      var init, last := a[..|a| - 1], a[|a| - 1];
      CountsAtMostOne(init);
      assert a == init + [last];
      assert last !in init;
      assert multiset(init)[last] == 0;
    }
  }

  lemma SettledIsOrder(plugins: seq<Plugin>, order: seq<Plugin>)
    requires Placed(plugins, Names(order), order) && Names(plugins) <= Names(order)
    requires forall k :: 0 <= k < |order| ==> Settled(plugins, order, k)
    ensures IsOrder(plugins, order)
  {
    forall p | p in order ensures Selected(plugins, order, p) {
      var k :| 0 <= k < |order| && order[k] == p;
      SettledIsSelected(plugins, order, k);
    }
    assert Names(order) == Names(plugins);
  }

  /** For unique names the order is a permutation, and shows that the plugins were resolvable. */
  lemma OrderIsExact(plugins: seq<Plugin>, order: seq<Plugin>)
    requires UniqueNames(plugins) && IsOrder(plugins, order)
    ensures multiset(order) == multiset(plugins) && Resolvable(plugins)
  {
    CoveringHoldsAll(plugins, order);
    SamePluginsPermute(order, plugins);
    OrderedIsResolvable(order);
    SameDependencies(plugins, order);
  }

  /**
   * resolve_plugin_order.  It succeeds exactly when the selected plugins can
   * be put in dependency order, and returns them so.  For unique names that
   * is a permutation, returned precisely when no dependency is missing and
   * there is no cycle.  An error names a real missing dependency or a real
   * cycle.
   */
  method ResolvePluginOrder(plugins: seq<Plugin>) returns (r: Result<seq<Plugin>, OrderError>)
    ensures r.Ok? <==> HasOrder(plugins)
    ensures r.Ok? ==> IsOrder(plugins, r.value) && Resolvable(r.value)
    ensures r.Ok? ==> forall order :: IsOrder(plugins, order) ==> multiset(order) == multiset(r.value)
    ensures r.Err? ==> Justified(plugins, r.error)
    ensures UniqueNames(plugins) ==> (r.Ok? <==> Resolvable(plugins))
    ensures UniqueNames(plugins) && r.Ok? ==> multiset(r.value) == multiset(plugins)
  {
    var search := new Resolution(plugins);
    for i := 0 to |plugins|
      invariant search.Valid() && search.plugins == plugins && search.visiting == []
      invariant fresh(search)
      invariant Names(plugins[..i]) <= search.visited
      invariant forall k :: 0 <= k < |search.ordered| ==> Settled(plugins, search.ordered, k)
    {
      ghost var before := search.ordered;
      ListedAgreesWithAll(plugins, before, i);
      assert [] + [plugins[i].name] == [plugins[i].name];
      var failure := search.Visit(plugins[i]);
      if failure.Some? {
        return Err(failure.value);
      }
      NextListed(plugins, i, before, search.ordered);
      forall k | 0 <= k < |search.ordered| ensures Settled(plugins, search.ordered, k) {
        ListedSettles(plugins, i, before, search.ordered, k);
      }
    }
    assert plugins[..|plugins|] == plugins;
    SettledIsOrder(plugins, search.ordered);
    OrdersAgree(plugins, search.ordered);
    OrderedIsResolvable(search.ordered);
    if UniqueNames(plugins) {
      OrderIsExact(plugins, search.ordered);
    }
    r := Ok(search.ordered);
  }

  function Enabled(plugins: seq<Plugin>, enabled: set<string>): seq<Plugin> {
    if plugins == [] then []
    else (if plugins[0].name in enabled then [plugins[0]] else []) + Enabled(plugins[1..], enabled)
  }

  lemma {:induction false} EnabledKeeps(plugins: seq<Plugin>, enabled: set<string>)
    ensures forall p :: p in Enabled(plugins, enabled) <==> p in plugins && p.name in enabled
    ensures UniqueNames(plugins) ==> UniqueNames(Enabled(plugins, enabled))
  {
    if plugins != [] {
      EnabledKeeps(plugins[1..], enabled);
      assert plugins == [plugins[0]] + plugins[1..];
      if UniqueNames(plugins) {
        forall p | p in plugins[1..] ensures p.name != plugins[0].name {
        }
      }
    }
  }

  /** The enabled plugins come in the order in which they are listed. */
  lemma {:induction false} EnabledInOrder(a: seq<Plugin>, b: seq<Plugin>, enabled: set<string>)
    ensures Enabled(a + b, enabled) == Enabled(a, enabled) + Enabled(b, enabled)
  {
    if a == [] {
      assert a + b == b;
    } else {
      var first, rest := a[0], a[1..];
      assert (a + b)[0] == first && (a + b)[1..] == rest + b;
      EnabledInOrder(rest, b, enabled);
      assert Enabled(a + b, enabled) == (if first.name in enabled then [first] else []) + Enabled(rest + b, enabled);
    }
  }

  /** The enabled plugins depend on enabled plugins only. */
  ghost predicate SelfContained(plugins: seq<Plugin>, enabled: set<string>) {
    forall p, d :: p in plugins && p.name in enabled && d in Deps(p) ==> d in enabled && d in Names(plugins)
  }

  /**
   * setup_plugins keeps the enabled plugins before ordering them, so an
   * enabled plugin that depends on a disabled or unknown one makes it fail.
   */
  method OrderEnabledPlugins(plugins: seq<Plugin>, enabled: set<string>) returns (r: Result<seq<Plugin>, OrderError>)
    ensures r.Ok? <==> HasOrder(Enabled(plugins, enabled))
    ensures r.Ok? ==> IsOrder(Enabled(plugins, enabled), r.value)
    ensures r.Err? ==> Justified(Enabled(plugins, enabled), r.error)
    ensures UniqueNames(plugins) ==> (r.Ok? <==> Resolvable(Enabled(plugins, enabled)))
    ensures UniqueNames(plugins) && r.Ok? ==>
      multiset(r.value) == multiset(Enabled(plugins, enabled)) && SelfContained(plugins, enabled)
  {
    var kept := Enabled(plugins, enabled);
    EnabledKeeps(plugins, enabled);
    r := ResolvePluginOrder(kept);
    if r.Ok? && UniqueNames(plugins) {
      forall p, d | p in plugins && p.name in enabled && d in Deps(p) ensures d in enabled && d in Names(plugins) {
        assert Declares(kept, p, p.name, d);
        assert !Misses(kept, p.name, d);
        var q :| q in kept && q.name == d;
      }
    }
  }
}
