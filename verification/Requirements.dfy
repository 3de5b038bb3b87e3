/**
 * Deciding whether a plugin's requirements are installed, with the
 * sub-dependencies their extras ask for (backend/plugin/requirements.py).
 *
 * The search answers "satisfied" for any state it has seen before, even one it
 * is still exploring.  It is proved exact on every dependency graph, cyclic or
 * not: True is returned if and only if everything reachable is satisfied.
 */
module Requirements {
  import opened Wrappers

  /** A parsed requirement with a canonical name; markers and specifiers are abstract tests. */
  datatype Requirement = Requirement(
    name: string,
    extras: set<string>,
    marker: Option<string -> bool>,
    specifier: Option<string -> bool>)

  datatype Line = Malformed(text: string) | Parsed(req: Requirement)

  datatype Distribution = Distribution(version: string, dependencies: seq<Line>)

  /** The installed distributions by canonical name. */
  type World = map<string, Distribution>

  /** What the search remembers: a name and the extras requested from it. */
  datatype State = State(name: string, extras: set<string>)

  /** A requirement together with the extras its marker is evaluated under. */
  datatype Visit = Visit(req: Requirement, active: set<string>)

  predicate Applies(v: Visit) {
    v.req.marker.None? || exists extra :: extra in v.active && v.req.marker.value(extra)
  }

  predicate Installed(world: World, req: Requirement) {
    req.name in world && (req.specifier.None? || req.specifier.value(world[req.name].version))
  }

  function StateOf(req: Requirement): State {
    State(req.name, req.extras)
  }

  /** Without extras the dependencies are evaluated under the empty extra. */
  function ActiveFor(extras: set<string>): set<string> {
    if extras == {} then {""} else extras
  }

  function Dependencies(world: World, name: string): seq<Line> {
    if name in world then world[name].dependencies else []
  }

  // ---------------------------------------------------------------- reachability

  ghost predicate IsRoot(roots: seq<Requirement>, v: Visit) {
    v.req in roots && v.active == {""}
  }

  /** w is a dependency met when v applies. */
  ghost predicate Leads(world: World, v: Visit, w: Visit) {
    Applies(v) && Parsed(w.req) in Dependencies(world, v.req.name) && w.active == ActiveFor(v.req.extras)
  }

  ghost predicate IsPath(world: World, roots: seq<Requirement>, path: seq<Visit>) {
    && path != [] && IsRoot(roots, path[0])
    && forall i :: 0 <= i < |path| - 1 ==> Leads(world, path[i], path[i + 1])
  }

  ghost predicate Reachable(world: World, roots: seq<Requirement>, v: Visit) {
    exists path :: IsPath(world, roots, path) && path[|path| - 1] == v
  }

  /** A reachable requirement applies but is missing or at a forbidden version. */
  ghost predicate SomeUnsatisfied(world: World, roots: seq<Requirement>) {
    exists v :: Reachable(world, roots, v) && Applies(v) && !Installed(world, v.req)
  }

  ghost predicate BadMetadata(world: World, name: string, text: string) {
    Malformed(text) in Dependencies(world, name)
  }

  /** The metadata of a reachable, applicable requirement cannot be parsed. */
  ghost predicate SomeMalformed(world: World, roots: seq<Requirement>, text: string) {
    exists v :: Reachable(world, roots, v) && Applies(v) && BadMetadata(world, v.req.name, text)
  }

  // ---------------------------------------------------------------- the search

  /** A dependency that needs no further attention: it does not apply, or is installed and seen. */
  ghost predicate Settled(world: World, seen: set<State>, line: Line, active: set<string>) {
    line.Parsed? && (Applies(Visit(line.req, active)) ==> Installed(world, line.req) && StateOf(line.req) in seen)
  }

  /** Every seen state outside `open` has only settled dependencies. */
  ghost predicate Closed(world: World, seen: set<State>, open: set<State>) {
    forall s, line :: s in seen && s !in open && line in Dependencies(world, s.name) ==>
      Settled(world, seen, line, ActiveFor(s.extras))
  }

  ghost function AllStates(world: World, roots: seq<Requirement>): set<State> {
    (set r | r in roots :: StateOf(r)) +
    (set n, i | n in world && 0 <= i < |world[n].dependencies| && world[n].dependencies[i].Parsed? ::
      StateOf(world[n].dependencies[i].req))
  }

  /** The first n dependencies need no further attention. */
  ghost predicate SettledUpTo(world: World, seen: set<State>, lines: seq<Line>, active: set<string>, n: nat)
    requires n <= |lines|
  {
    forall j :: 0 <= j < n ==> Settled(world, seen, lines[j], active)
  }

  lemma SettledNext(world: World, before: set<State>, seen: set<State>, lines: seq<Line>, active: set<string>, n: nat)
    requires n < |lines| && SettledUpTo(world, before, lines, active, n) && before <= seen
    requires Settled(world, seen, lines[n], active)
    ensures SettledUpTo(world, seen, lines, active, n + 1)
  {
  }

  /** The search state of _requirements_installed. */
  class Search {
    const world: World
    ghost const roots: seq<Requirement>
    var visited: set<State>

    constructor (world: World, ghost roots: seq<Requirement>)
      ensures this.world == world && this.roots == roots && visited == {}
    {
      this.world := world;
      this.roots := roots;
      visited := {};
    }

    method RequirementSatisfied(req: Requirement, active: set<string>, ghost path: seq<Visit>, ghost open: set<State>)
      returns (r: Result<bool, string>)
      requires IsPath(world, roots, path) && path[|path| - 1] == Visit(req, active)
      requires StateOf(req) in AllStates(world, roots)
      requires Closed(world, visited, open)
      modifies this
      ensures Closed(world, visited, open) || r != Ok(true)
      ensures old(visited) <= visited
      ensures r == Ok(true) ==> Settled(world, visited, Parsed(req), active)
      ensures r == Ok(false) ==> SomeUnsatisfied(world, roots)
      ensures r.Err? ==> SomeMalformed(world, roots, r.error)
      decreases AllStates(world, roots) - visited
    {
      if !Applies(Visit(req, active)) {
        return Ok(true);
      }
      assert Reachable(world, roots, Visit(req, active));
      if req.name !in world {
        return Ok(false);
      }
      if req.specifier.Some? && !req.specifier.value(world[req.name].version) {
        return Ok(false);
      }
      var state := StateOf(req);
      if state in visited {
        return Ok(true);
      }
      visited := visited + {state};
      var lines := world[req.name].dependencies;
      for i := 0 to |lines|
        invariant old(visited) + {state} <= visited
        invariant Closed(world, visited, open + {state})
        invariant SettledUpTo(world, visited, lines, ActiveFor(req.extras), i)
      {
        if lines[i].Malformed? {
          assert BadMetadata(world, req.name, lines[i].text);
          return Err(lines[i].text);
        }
        var w := Visit(lines[i].req, ActiveFor(req.extras));
        ghost var before := visited;
        r := RequirementSatisfied(w.req, w.active, path + [w], open + {state});
        if r.Err? || !r.value {
          return;
        }
        SettledNext(world, before, visited, lines, ActiveFor(req.extras), i);
      }
      r := Ok(true);
    }
  }

  /** When no state is open, whatever is reachable and applies is installed, seen, and well-formed. */
  lemma {:induction false} ClosedCovers(world: World, roots: seq<Requirement>, seen: set<State>, path: seq<Visit>)
    requires Closed(world, seen, {}) && IsPath(world, roots, path)
    requires forall r :: r in roots ==> Settled(world, seen, Parsed(r), {""})
    ensures var v := path[|path| - 1];
      Settled(world, seen, Parsed(v.req), v.active)
      && (Applies(v) ==> forall text :: !BadMetadata(world, v.req.name, text))
  {
    var v := path[|path| - 1];
    if |path| > 1 {
      var before := path[..|path| - 1];
      ClosedCovers(world, roots, seen, before);
      assert Leads(world, path[|path| - 2], v);
      assert StateOf(before[|before| - 1].req) in seen;
    }
    if Applies(v) {
      assert StateOf(v.req) in seen;
      forall text ensures !BadMetadata(world, v.req.name, text) {
      }
    }
  }

  // ---------------------------------------------------------------- certificates

  /**
   * The marker lets the requirement count: without requested extras it is
   * evaluated once under the empty extra, otherwise under each of them.
   */
  ghost predicate Wanted(r: Requirement, extras: set<string>) {
    || r.marker.None?
    || (extras == {} && r.marker.value(""))
    || exists extra :: extra in extras && r.marker.value(extra)
  }

  /** Present at an allowed version, and among the certified states. */
  ghost predicate Fulfilled(world: World, r: Requirement, states: set<State>) {
    && r.name in world && State(r.name, r.extras) in states
    && (r.specifier.Some? ==> r.specifier.value(world[r.name].version))
  }

  ghost predicate LineHolds(world: World, line: Line, extras: set<string>, states: set<State>) {
    line.Parsed? && (Wanted(line.req, extras) ==> Fulfilled(world, line.req, states))
  }

  /** The states contain what the roots want, and with every state what its dependencies want. */
  ghost predicate Certifies(world: World, roots: seq<Requirement>, states: set<State>) {
    && (forall r :: r in roots ==> LineHolds(world, Parsed(r), {}, states))
    && forall s, line :: s in states && s.name in world && line in world[s.name].dependencies ==>
         LineHolds(world, line, s.extras, states)
  }

  lemma AppliesIfWanted(r: Requirement, extras: set<string>)
    ensures Applies(Visit(r, ActiveFor(extras))) <==> Wanted(r, extras)
  {
    if extras == {} {
      assert "" in ActiveFor(extras);
    }
  }

  /** What is reachable under a certificate holds. */
  lemma {:induction false} CertifiedHolds(world: World, roots: seq<Requirement>, states: set<State>, path: seq<Visit>)
    requires Certifies(world, roots, states) && IsPath(world, roots, path)
    ensures var v := path[|path| - 1]; Applies(v) ==>
      Fulfilled(world, v.req, states) && forall text :: !BadMetadata(world, v.req.name, text)
  {
    var v := path[|path| - 1];
    if |path| == 1 {
      AppliesIfWanted(v.req, {});
      assert LineHolds(world, Parsed(v.req), {}, states);
    } else {
      var u := path[|path| - 2];
      CertifiedHolds(world, roots, states, path[..|path| - 1]);
      assert Leads(world, u, v);
      AppliesIfWanted(v.req, u.req.extras);
      assert LineHolds(world, Parsed(v.req), u.req.extras, states);
    }
    if Applies(v) {
      forall text ensures !BadMetadata(world, v.req.name, text) {
        assert !LineHolds(world, Malformed(text), v.req.extras, states);
      }
    }
  }

  /** Everything reachable that applies, as states. */
  ghost function Needed(world: World, roots: seq<Requirement>): set<State> {
    set s | s in AllStates(world, roots) && exists v :: Reachable(world, roots, v) && Applies(v) && StateOf(v.req) == s
  }

  lemma NeedIsMet(world: World, roots: seq<Requirement>, v: Visit)
    requires !SomeUnsatisfied(world, roots) && Reachable(world, roots, v)
    requires StateOf(v.req) in AllStates(world, roots)
    ensures Applies(v) ==> Fulfilled(world, v.req, Needed(world, roots))
  {
    if Applies(v) {
      assert Installed(world, v.req);
      assert StateOf(v.req) in Needed(world, roots);
    }
  }

  lemma DependencyHolds(world: World, roots: seq<Requirement>, s: State, line: Line)
    requires !SomeUnsatisfied(world, roots) && forall text :: !SomeMalformed(world, roots, text)
    requires s in Needed(world, roots) && s.name in world && line in world[s.name].dependencies
    ensures LineHolds(world, line, s.extras, Needed(world, roots))
  {
    var v :| Reachable(world, roots, v) && Applies(v) && StateOf(v.req) == s;
    if line.Malformed? {
      assert BadMetadata(world, s.name, line.text);
      assert SomeMalformed(world, roots, line.text);
    } else {
      var path :| IsPath(world, roots, path) && path[|path| - 1] == v;
      var w := Visit(line.req, ActiveFor(s.extras));
      assert Leads(world, v, w);
      assert IsPath(world, roots, path + [w]);
      assert Reachable(world, roots, w);
      NeedIsMet(world, roots, w);
      AppliesIfWanted(line.req, s.extras);
    }
  }

  /**
   * Everything reachable is satisfied and readable exactly when some set of
   * states certifies it: the search needs no order and no path.
   */
  lemma SatisfiedIffCertified(world: World, roots: seq<Requirement>)
    ensures !SomeUnsatisfied(world, roots) && (forall text :: !SomeMalformed(world, roots, text)) <==>
            exists states :: Certifies(world, roots, states)
  {
    if !SomeUnsatisfied(world, roots) && forall text :: !SomeMalformed(world, roots, text) {
      forall r | r in roots ensures LineHolds(world, Parsed(r), {}, Needed(world, roots)) {
        var path := [Visit(r, {""})];
        assert IsPath(world, roots, path) && path[|path| - 1] == path[0];
        NeedIsMet(world, roots, path[0]);
        AppliesIfWanted(r, {});
      }
      forall s, line | s in Needed(world, roots) && s.name in world && line in world[s.name].dependencies
        ensures LineHolds(world, line, s.extras, Needed(world, roots))
      {
        DependencyHolds(world, roots, s, line);
      }
      assert Certifies(world, roots, Needed(world, roots));
    }
    if states :| Certifies(world, roots, states) {
      forall v | Reachable(world, roots, v) && Applies(v)
        ensures Installed(world, v.req) && forall text :: !BadMetadata(world, v.req.name, text)
      {
        var path :| IsPath(world, roots, path) && path[|path| - 1] == v;
        CertifiedHolds(world, roots, states, path);
      }
    }
  }

  // ---------------------------------------------------------------- the whole check

  /** The requirements file: comments and blanks are already gone. */
  ghost predicate WellFormed(lines: seq<Line>) {
    forall i :: 0 <= i < |lines| ==> lines[i].Parsed?
  }

  ghost function Roots(lines: seq<Line>): seq<Requirement>
    requires WellFormed(lines)
  {
    seq(|lines|, i requires 0 <= i < |lines| => lines[i].req)
  }

  /**
   * _requirements_installed.  True is returned exactly when every reachable
   * requirement that applies is installed at an allowed version and has
   * readable metadata; False and errors are always justified.
   */
  method RequirementsInstalled(lines: seq<Line>, world: World) returns (r: Result<bool, string>)
    ensures !WellFormed(lines) ==> r.Err? && Malformed(r.error) in lines
    ensures WellFormed(lines) ==>
      && (r == Ok(true) <==>
           !SomeUnsatisfied(world, Roots(lines)) && forall text :: !SomeMalformed(world, Roots(lines), text))
      && (r == Ok(true) <==> exists states :: Certifies(world, Roots(lines), states))
      && (r == Ok(false) ==> SomeUnsatisfied(world, Roots(lines)))
      && (r.Err? ==> SomeMalformed(world, Roots(lines), r.error))
  {
    var requirements: seq<Requirement> := [];
    for i := 0 to |lines|
      invariant |requirements| == i
      invariant forall j :: 0 <= j < i ==> lines[j] == Parsed(requirements[j])
    {
      if lines[i].Malformed? {
        return Err(lines[i].text);
      }
      requirements := requirements + [lines[i].req];
    }
    assert requirements == Roots(lines);
    SatisfiedIffCertified(world, requirements);
    var search := new Search(world, requirements);
    for i := 0 to |requirements|
      invariant fresh(search) && search.world == world && search.roots == requirements
      invariant Closed(world, search.visited, {})
      invariant forall j :: 0 <= j < i ==> Settled(world, search.visited, Parsed(requirements[j]), {""})
    {
      r := search.RequirementSatisfied(requirements[i], {""}, [Visit(requirements[i], {""})], {});
      if r.Err? || !r.value {
        return;
      }
    }
    r := Ok(true);
    forall v | Reachable(world, requirements, v) && Applies(v)
      ensures Installed(world, v.req) && forall text :: !BadMetadata(world, v.req.name, text)
    {
      var path :| IsPath(world, requirements, path) && path[|path| - 1] == v;
      ClosedCovers(world, requirements, search.visited, path);
    }
  }
}
