/**
 * Compiling a user's data rules into a row filter
 * (backend/common/security/permission.py).
 *
 * The compiled expression is evaluated in SQL's three-valued logic; a row is
 * visible only when the filter is true.
 */
module DataPermission {
  import opened Strings

  // ---------------------------------------------------------------- rules

  const AND_OPERATOR := 0
  const OR_OPERATOR := 1
  const ALL_MODELS := "__ALL__"

  /** Operators and expressions by their enum values, 0..1 and 0..7. */
  datatype Rule = Rule(id: int, model: string, column: string, operator: int, expression: int, value: string)

  /** The rule list of a scope may hold placeholders without a rule. */
  datatype RuleSlot = NoRule | HasRule(rule: Rule)
  datatype Scope = Scope(enabled: bool, rules: seq<RuleSlot>)
  datatype Role = Role(enabled: bool, filtersScopes: bool, scopes: seq<Scope>)
  datatype User = User(superuser: bool, roles: seq<Role>)

  /**
   * The target models with the types of their columns, the column template
   * variables, the excluded columns, the values of the template variables, and
   * which texts a column type can be made from.
   */
  datatype Target = Target(
    models: map<string, map<string, string>>,
    columnTemplates: map<string, string>,
    excluded: set<string>,
    templates: map<string, string>,
    converts: (string, string) -> bool)

  /** A value compared with: a text as it is, or converted to a column type. */
  datatype Operand = Raw(text: string) | Converted(kind: string, text: string)

  /** A comparison of one column with operands; how values compare is left to the database. */
  datatype Condition = Condition(model: string, column: string, expression: int, operands: seq<Operand>)

  /** cast_value: a template variable is replaced; what cannot be converted stays text. */
  function CastValue(t: Target, kind: string, value: string): Operand {
    if value in t.templates then
      if t.converts(kind, t.templates[value]) then Converted(kind, t.templates[value]) else Raw(value)
    else if kind != "str" && t.converts(kind, value) then Converted(kind, value)
    else Raw(value)
  }

  const IN_EXPRESSION := 6
  const NOT_IN_EXPRESSION := 7

  function CastAll(t: Target, kind: string, values: seq<string>): seq<Operand> {
    seq(|values|, i requires 0 <= i < |values| => CastValue(t, kind, Strip(values[i])))
  }

  /** The membership expressions take a list separated by commas, the others one value. */
  function Operands(t: Target, kind: string, rule: Rule): seq<Operand> {
    if rule.expression == IN_EXPRESSION || rule.expression == NOT_IN_EXPRESSION then
      CastAll(t, kind, Split(rule.value, ','))
    else [CastValue(t, kind, rule.value)]
  }

  /**
   * The operand stands for the text: a template variable for its value, and text
   * that the type of a column other than text can be made from for what it is
   * made into; whatever cannot be converted stands for itself.
   */
  ghost predicate StandsFor(t: Target, kind: string, text: string, o: Operand) {
    && (o.Converted? <==>
         || (text in t.templates && t.converts(kind, t.templates[text]))
         || (text !in t.templates && kind != "str" && t.converts(kind, text)))
    && (o.Converted? ==> o.kind == kind && o.text == if text in t.templates then t.templates[text] else text)
    && (o.Raw? ==> o.text == text)
  }

  /** It stands for the text without the white space around it. */
  ghost predicate StandsForCore(t: Target, kind: string, text: string, o: Operand) {
    exists core :: IsCore(text, core) && StandsFor(t, kind, core, o)
  }

  lemma CastOfCore(t: Target, kind: string, text: string)
    ensures StandsForCore(t, kind, text, CastValue(t, kind, Strip(text)))
  {
    StripIsCore(text);
    assert StandsFor(t, kind, Strip(text), CastValue(t, kind, Strip(text)));
  }

  /** The membership expressions, 6 and 7: every listed text becomes one operand, without the space around it. */
  lemma ListedValuesAreOperands(t: Target, kind: string, rule: Rule, values: seq<string>)
    requires rule.expression == 6 || rule.expression == 7
    requires values != [] && Without(values, ',') && rule.value == Join(values, ',')
    ensures |Operands(t, kind, rule)| == |values|
    ensures forall i :: 0 <= i < |values| ==> StandsForCore(t, kind, values[i], Operands(t, kind, rule)[i])
  {
    SplitJoin(values, ',');
    forall i | 0 <= i < |values| ensures StandsForCore(t, kind, values[i], Operands(t, kind, rule)[i]) {
      CastOfCore(t, kind, values[i]);
    }
  }

  /** The six comparisons, 0 to 5: the whole text is the one operand. */
  lemma ComparedValueIsOperand(t: Target, kind: string, rule: Rule)
    requires 0 <= rule.expression <= 5
    ensures |Operands(t, kind, rule)| == 1 && StandsFor(t, kind, rule.value, Operands(t, kind, rule)[0])
  {
  }

  // ---------------------------------------------------------------- filters

  datatype Truth = True | False | Unknown

  datatype Filter =
    | Always(value: bool)
    | Test(condition: Condition)
    | AllOf(parts: seq<Filter>)
    | AnyOf(parts: seq<Filter>)

  function And(a: Truth, b: Truth): Truth {
    if a.False? || b.False? then False else if a.True? && b.True? then True else Unknown
  }

  function Or(a: Truth, b: Truth): Truth {
    if a.True? || b.True? then True else if a.False? && b.False? then False else Unknown
  }

  /** The truth of a filter on a row, given the truth of every condition on that row. */
  function Eval(f: Filter, row: Condition -> Truth): Truth
    decreases f, 0
  {
    match f
    case Always(b) => if b then True else False
    case Test(c) => row(c)
    case AllOf(parts) => EvalAll(parts, row)
    case AnyOf(parts) => EvalAny(parts, row)
  }

  function EvalAll(parts: seq<Filter>, row: Condition -> Truth): Truth
    decreases parts, 1
  {
    if parts == [] then True else And(Eval(parts[0], row), EvalAll(parts[1..], row))
  }

  function EvalAny(parts: seq<Filter>, row: Condition -> Truth): Truth
    decreases parts, 1
  {
    if parts == [] then False else Or(Eval(parts[0], row), EvalAny(parts[1..], row))
  }

  lemma {:induction false} AllTrue(parts: seq<Filter>, row: Condition -> Truth)
    ensures EvalAll(parts, row).True? <==> forall i :: 0 <= i < |parts| ==> Eval(parts[i], row).True?
  {
    if parts != [] {
      var rest := parts[1..];
      AllTrue(rest, row);
      assert forall i :: 0 <= i < |rest| ==> rest[i] == parts[i + 1];
      assert EvalAll(parts, row).True? <==> Eval(parts[0], row).True? && EvalAll(rest, row).True?;
      if Eval(parts[0], row).True? && EvalAll(rest, row).True? {
        forall i | 0 <= i < |parts| ensures Eval(parts[i], row).True? {
          assert i > 0 ==> parts[i] == rest[i - 1];
        }
      }
    }
  }

  lemma {:induction false} AnyTrue(parts: seq<Filter>, row: Condition -> Truth)
    ensures EvalAny(parts, row).True? <==> exists i :: 0 <= i < |parts| && Eval(parts[i], row).True?
  {
    if parts != [] {
      var rest := parts[1..];
      AnyTrue(rest, row);
      assert forall i :: 0 <= i < |rest| ==> rest[i] == parts[i + 1];
      assert EvalAny(parts, row).True? <==> Eval(parts[0], row).True? || EvalAny(rest, row).True?;
      if i :| 0 <= i < |parts| && Eval(parts[i], row).True? {
        assert i > 0 ==> parts[i] == rest[i - 1];
      }
    }
  }

  // ---------------------------------------------------------------- what the rules mean

  ghost predicate ScopeGrants(scope: Scope, rule: Rule) {
    scope.enabled && HasRule(rule) in scope.rules
  }

  ghost predicate ScopesGrant(scopes: seq<Scope>, rule: Rule) {
    exists scope :: scope in scopes && ScopeGrants(scope, rule)
  }

  ghost predicate RoleGrants(role: Role, rule: Rule) {
    role.enabled && ScopesGrant(role.scopes, rule)
  }

  ghost predicate RolesGrant(roles: seq<Role>, rule: Rule) {
    exists role :: role in roles && RoleGrants(role, rule)
  }

  ghost predicate Grants(user: User, rule: Rule) {
    RolesGrant(user.roles, rule)
  }

  ghost predicate SomeRoleUnfiltered(user: User) {
    exists role :: role in user.roles && role.enabled && !role.filtersScopes
  }

  function ColumnOf(t: Target, rule: Rule): string {
    if rule.column in t.columnTemplates then t.columnTemplates[rule.column] else rule.column
  }

  /** The rule yields this condition on one of the target models. */
  predicate Yields(t: Target, rule: Rule, c: Condition) {
    && c.model in t.models && (rule.model == ALL_MODELS || rule.model == c.model)
    && c.column == ColumnOf(t, rule) && c.column in t.models[c.model] && c.column !in t.excluded
    && 0 <= rule.expression <= 7 && c.expression == rule.expression
    && c.operands == Operands(t, t.models[c.model][c.column], rule)
  }

  ghost predicate Applies(user: User, t: Target, operator: int, c: Condition) {
    exists rule :: Grants(user, rule) && rule.operator == operator && Yields(t, rule, c)
  }

  /**
   * The rows a user may see: all for superusers and for users with an enabled
   * role that does not filter; none without an enabled rule; all when no rule
   * applies to the target; otherwise those that meet every AND condition, of
   * which there is one at least, or some OR condition.
   */
  ghost predicate MaySee(user: User, t: Target, row: Condition -> Truth) {
    || user.superuser
    || SomeRoleUnfiltered(user)
    || (&& (exists rule :: Grants(user, rule))
        && (|| (forall c :: !Applies(user, t, AND_OPERATOR, c) && !Applies(user, t, OR_OPERATOR, c))
            || ((exists c :: Applies(user, t, AND_OPERATOR, c)) &&
                forall c :: Applies(user, t, AND_OPERATOR, c) ==> row(c).True?)
            || (exists c :: Applies(user, t, OR_OPERATOR, c) && row(c).True?)))
  }

  // ---------------------------------------------------------------- the compiler

  method CollectRules(user: User) returns (rules: set<Rule>)
    ensures forall rule :: rule in rules <==> Grants(user, rule)
  {
    rules := {};
    for i := 0 to |user.roles|
      invariant forall rule :: rule in rules <==> RolesGrant(user.roles[..i], rule)
    {
      ghost var before := rules;
      if user.roles[i].enabled {
        var more := CollectScopeRules(user.roles[i].scopes);
        rules := rules + more;
      }
      forall rule ensures rule in rules <==> RolesGrant(user.roles[..i + 1], rule) {
        assert rule in rules <==> rule in before || RoleGrants(user.roles[i], rule);
        assert user.roles[..i + 1] == user.roles[..i] + [user.roles[i]];
      }
    }
    assert user.roles[..|user.roles|] == user.roles;
  }

  method CollectScopeRules(scopes: seq<Scope>) returns (rules: set<Rule>)
    ensures forall rule :: rule in rules <==> ScopesGrant(scopes, rule)
  {
    rules := {};
    for j := 0 to |scopes|
      invariant forall rule :: rule in rules <==> ScopesGrant(scopes[..j], rule)
    {
      ghost var before := rules;
      if scopes[j].enabled {
        rules := rules + set slot | slot in scopes[j].rules && slot.HasRule? :: slot.rule;
      }
      forall rule ensures rule in rules <==> ScopesGrant(scopes[..j + 1], rule) {
        assert rule in rules <==> rule in before || ScopeGrants(scopes[j], rule) by {
          assert HasRule(rule).rule == rule;
        }
        assert scopes[..j + 1] == scopes[..j] + [scopes[j]];
      }
    }
    assert scopes[..|scopes|] == scopes;
  }

  /** The list tests exactly the conditions of the given rules under an operator. */
  ghost predicate Tests(list: seq<Filter>, t: Target, rules: set<Rule>, operator: int) {
    && (forall f :: f in list ==> f.Test?)
    && (forall c :: Test(c) in list <==>
         exists rule :: rule in rules && rule.operator == operator && Yields(t, rule, c))
  }

  /** The conditions that one rule adds, model by model. */
  method RuleConditions(t: Target, rule: Rule) returns (conditions: seq<Filter>)
    ensures forall f :: f in conditions ==> f.Test?
    ensures forall c :: Test(c) in conditions <==> Yields(t, rule, c)
  {
    var targets :=
      if rule.model == ALL_MODELS then t.models.Keys
      else if rule.model in t.models then {rule.model}
      else {};
    conditions := [];
    var todo := targets;
    while todo != {}
      invariant todo <= targets
      invariant forall f :: f in conditions ==> f.Test?
      invariant forall c :: Test(c) in conditions <==> Yields(t, rule, c) && c.model !in todo
      decreases todo
    {
      var model :| model in todo;
      todo := todo - {model};
      var column := if rule.column in t.columnTemplates then t.columnTemplates[rule.column] else rule.column;
      if column in t.models[model] && column !in t.excluded && 0 <= rule.expression <= 7 {
        var operands := Operands(t, t.models[model][column], rule);
        conditions := conditions + [Test(Condition(model, column, rule.expression, operands))];
      }
    }
  }

  /**
   * filter_data_permission.  For any user, any target models and any order in
   * which sets are iterated, the compiled filter is true on exactly the rows
   * the user may see.
   */
  method FilterDataPermission(user: User, t: Target) returns (f: Filter)
    ensures forall row :: Eval(f, row).True? <==> MaySee(user, t, row)
  {
    if user.superuser {
      return Always(true);
    }
    for i := 0 to |user.roles|
      invariant forall j :: 0 <= j < i ==> !(user.roles[j].enabled && !user.roles[j].filtersScopes)
    {
      if user.roles[i].enabled && !user.roles[i].filtersScopes {
        assert user.roles[i] in user.roles;
        return Always(true);
      }
    }
    var rules := CollectRules(user);
    if rules == {} {
      return Always(false);
    }
    var whereAnd, whereOr := CompileRules(t, rules);
    f := Combine(whereAnd, whereOr);
    forall row ensures Eval(f, row).True? <==> MaySee(user, t, row) {
      CombineMeans(whereAnd, whereOr, row);
      CombinedIsMaySee(user, t, rules, whereAnd, whereOr, row);
    }
  }

  method CompileRules(t: Target, rules: set<Rule>) returns (whereAnd: seq<Filter>, whereOr: seq<Filter>)
    ensures Tests(whereAnd, t, rules, AND_OPERATOR) && Tests(whereOr, t, rules, OR_OPERATOR)
  {
    whereAnd, whereOr := [], [];
    var todo := rules;
    while todo != {}
      invariant todo <= rules
      invariant Tests(whereAnd, t, rules - todo, AND_OPERATOR) && Tests(whereOr, t, rules - todo, OR_OPERATOR)
      decreases todo
    {
      var rule :| rule in todo;
      ghost var before := rules - todo;
      todo := todo - {rule};
      assert rules - todo == before + {rule};
      var conditions := RuleConditions(t, rule);
      if rule.operator == AND_OPERATOR {
        whereAnd := whereAnd + conditions;
      } else if rule.operator == OR_OPERATOR {
        whereOr := whereOr + conditions;
      }
    }
    assert rules - todo == rules;
  }

  function Combine(whereAnd: seq<Filter>, whereOr: seq<Filter>): Filter {
    var whereList :=
      (if whereAnd != [] then [AllOf(whereAnd)] else []) + (if whereOr != [] then [AnyOf(whereOr)] else []);
    if whereList != [] then AnyOf(whereList) else Always(true)
  }

  lemma CombineMeans(whereAnd: seq<Filter>, whereOr: seq<Filter>, row: Condition -> Truth)
    ensures Eval(Combine(whereAnd, whereOr), row).True? <==>
      || (whereAnd == [] && whereOr == [])
      || (whereAnd != [] && forall i :: 0 <= i < |whereAnd| ==> Eval(whereAnd[i], row).True?)
      || (exists i :: 0 <= i < |whereOr| && Eval(whereOr[i], row).True?)
  {
    AllTrue(whereAnd, row);
    AnyTrue(whereOr, row);
    AnyOfOne(AllOf(whereAnd), row);
    AnyOfOne(AnyOf(whereOr), row);
    AnyOfTwo(AllOf(whereAnd), AnyOf(whereOr), row);
    var whereList :=
      (if whereAnd != [] then [AllOf(whereAnd)] else []) + (if whereOr != [] then [AnyOf(whereOr)] else []);
    assert whereAnd != [] && whereOr != [] ==> whereList == [AllOf(whereAnd), AnyOf(whereOr)];
    assert whereAnd != [] && whereOr == [] ==> whereList == [AllOf(whereAnd)];
    assert whereAnd == [] && whereOr != [] ==> whereList == [AnyOf(whereOr)];
  }

  lemma AnyOfOne(f: Filter, row: Condition -> Truth)
    ensures Eval(AnyOf([f]), row).True? <==> Eval(f, row).True?
  {
    assert [f][0] == f;
    AnyTrue([f], row);
  }

  lemma AnyOfTwo(f: Filter, g: Filter, row: Condition -> Truth)
    ensures Eval(AnyOf([f, g]), row).True? <==> Eval(f, row).True? || Eval(g, row).True?
  {
    assert [f, g][0] == f && [f, g][1] == g;
    AnyTrue([f, g], row);
  }

  lemma CombinedIsMaySee(user: User, t: Target, rules: set<Rule>, whereAnd: seq<Filter>, whereOr: seq<Filter>,
                         row: Condition -> Truth)
    requires !user.superuser && !SomeRoleUnfiltered(user) && rules != {}
    requires forall rule :: rule in rules <==> Grants(user, rule)
    requires Tests(whereAnd, t, rules, AND_OPERATOR) && Tests(whereOr, t, rules, OR_OPERATOR)
    ensures MaySee(user, t, row) <==>
      || (whereAnd == [] && whereOr == [])
      || (whereAnd != [] && forall i :: 0 <= i < |whereAnd| ==> Eval(whereAnd[i], row).True?)
      || (exists i :: 0 <= i < |whereOr| && Eval(whereOr[i], row).True?)
  {
    ListMeans(user, t, rules, whereAnd, AND_OPERATOR, row);
    ListMeans(user, t, rules, whereOr, OR_OPERATOR, row);
    assert exists rule :: Grants(user, rule) by {
      var rule :| rule in rules;
    }
  }

  /** A list of tests stands for the conditions that apply under its operator. */
  lemma ListMeans(user: User, t: Target, rules: set<Rule>, list: seq<Filter>, operator: int, row: Condition -> Truth)
    requires forall rule :: rule in rules <==> Grants(user, rule)
    requires Tests(list, t, rules, operator)
    ensures list == [] <==> forall c :: !Applies(user, t, operator, c)
    ensures (forall i :: 0 <= i < |list| ==> Eval(list[i], row).True?) <==>
      forall c :: Applies(user, t, operator, c) ==> row(c).True?
    ensures (exists i :: 0 <= i < |list| && Eval(list[i], row).True?) <==>
      exists c :: Applies(user, t, operator, c) && row(c).True?
  {
    forall c ensures Applies(user, t, operator, c) <==> Test(c) in list {
    }
    forall i | 0 <= i < |list|
      ensures Applies(user, t, operator, list[i].condition) && Eval(list[i], row) == row(list[i].condition)
    {
      assert list[i] in list && list[i] == Test(list[i].condition);
    }
    forall c | Applies(user, t, operator, c) ensures exists i :: 0 <= i < |list| && list[i] == Test(c) {
    }
    if list != [] {
      assert Applies(user, t, operator, list[0].condition);
    }
  }

  // ---------------------------------------------------------------- order and repetition do not matter

  ghost predicate SameScope(a: Scope, b: Scope) {
    a.enabled == b.enabled && forall slot :: slot in a.rules <==> slot in b.rules
  }

  ghost predicate HasScope(a: seq<Scope>, x: Scope) {
    exists y :: y in a && SameScope(y, x)
  }

  ghost predicate CoversScopes(a: seq<Scope>, b: seq<Scope>) {
    forall x {:trigger HasScope(a, x)} :: x in b ==> HasScope(a, x)
  }

  ghost predicate CoversRole(a: Role, b: Role) {
    a.enabled == b.enabled && a.filtersScopes == b.filtersScopes && CoversScopes(a.scopes, b.scopes)
  }

  ghost predicate HasRole(a: seq<Role>, x: Role) {
    exists y :: y in a && CoversRole(y, x)
  }

  /** Every role of b occurs among a's, up to order and repetition of its scopes and their rules. */
  ghost predicate Covers(a: User, b: User) {
    a.superuser == b.superuser && forall x {:trigger HasRole(a.roles, x)} :: x in b.roles ==> HasRole(a.roles, x)
  }

  lemma CoveringScopesGrant(a: seq<Scope>, b: seq<Scope>, rule: Rule)
    requires CoversScopes(a, b) && ScopesGrant(b, rule)
    ensures ScopesGrant(a, rule)
  {
    var scope :| scope in b && ScopeGrants(scope, rule);
    assert HasScope(a, scope);
    var other :| other in a && SameScope(other, scope);
    assert ScopeGrants(other, rule);
  }

  lemma CoveringGrants(a: User, b: User, rule: Rule)
    requires Covers(a, b) && Grants(b, rule)
    ensures Grants(a, rule)
  {
    var x :| x in b.roles && RoleGrants(x, rule);
    assert HasRole(a.roles, x);
    var y :| y in a.roles && CoversRole(y, x);
    CoveringScopesGrant(y.scopes, x.scopes, rule);
    assert RoleGrants(y, rule);
  }

  lemma CoveringUnfiltered(a: User, b: User)
    requires Covers(a, b) && SomeRoleUnfiltered(b)
    ensures SomeRoleUnfiltered(a)
  {
    var x :| x in b.roles && x.enabled && !x.filtersScopes;
    assert HasRole(a.roles, x);
    var y :| y in a.roles && CoversRole(y, x);
  }

  ghost predicate SameGrants(a: User, b: User) {
    && a.superuser == b.superuser
    && (SomeRoleUnfiltered(a) <==> SomeRoleUnfiltered(b))
    && forall rule :: Grants(a, rule) <==> Grants(b, rule)
  }

  lemma SameGrantsSameView(a: User, b: User, t: Target, row: Condition -> Truth)
    requires SameGrants(a, b)
    ensures MaySee(a, t, row) <==> MaySee(b, t, row)
  {
    forall op, c ensures Applies(a, t, op, c) <==> Applies(b, t, op, c) {
    }
  }

  lemma CoversBothWays(a: User, b: User)
    requires Covers(a, b) && Covers(b, a)
    ensures SameGrants(a, b)
  {
    forall rule ensures Grants(a, rule) <==> Grants(b, rule) {
      if Grants(a, rule) {
        CoveringGrants(b, a, rule);
      }
      if Grants(b, rule) {
        CoveringGrants(a, b, rule);
      }
    }
    if SomeRoleUnfiltered(a) {
      CoveringUnfiltered(b, a);
    }
    if SomeRoleUnfiltered(b) {
      CoveringUnfiltered(a, b);
    }
  }

  /** Permuting or repeating roles, scopes or rules changes no row's visibility. */
  lemma OrderAndRepetitionDoNotMatter(a: User, b: User, t: Target, row: Condition -> Truth)
    requires Covers(a, b) && Covers(b, a)
    ensures MaySee(a, t, row) <==> MaySee(b, t, row)
  {
    CoversBothWays(a, b);
    SameGrantsSameView(a, b, t, row);
  }

  // ---------------------------------------------------------------- who and what counts

  /** A rule tests a target model exactly if it names the model or all, and its column exists and is not excluded. */
  lemma RuleReaches(t: Target, rule: Rule, model: string)
    ensures (exists c :: Yields(t, rule, c) && c.model == model) <==>
      && model in t.models && (rule.model == model || rule.model == "__ALL__") && 0 <= rule.expression <= 7
      && var column := if rule.column in t.columnTemplates then t.columnTemplates[rule.column] else rule.column;
         column in t.models[model] && column !in t.excluded
    ensures forall c :: Yields(t, rule, c) ==> c.expression == rule.expression
  {
    var column := ColumnOf(t, rule);
    if model in t.models && column in t.models[model] {
      var c := Condition(model, column, rule.expression, Operands(t, t.models[model][column], rule));
      assert (rule.model == model || rule.model == ALL_MODELS) && 0 <= rule.expression <= 7 && column !in t.excluded ==>
        Yields(t, rule, c);
    }
  }

  /** A disabled role neither grants nor lifts anything. */
  lemma DisabledRoleAddsNothing(user: User, role: Role, t: Target, row: Condition -> Truth)
    requires !role.enabled
    ensures MaySee(user.(roles := user.roles + [role]), t, row) <==> MaySee(user, t, row)
  {
    var more := user.(roles := user.roles + [role]);
    forall rule ensures Grants(more, rule) <==> Grants(user, rule) {
      if x :| x in user.roles && RoleGrants(x, rule) {
        assert x in more.roles;
      }
    }
    if x :| x in user.roles && x.enabled && !x.filtersScopes {
      assert x in more.roles;
    }
    SameGrantsSameView(more, user, t, row);
  }

  /** A disabled scope grants nothing. */
  lemma DisabledScopeAddsNothing(user: User, role: Role, scope: Scope, t: Target, row: Condition -> Truth)
    requires !scope.enabled
    ensures MaySee(user.(roles := user.roles + [role.(scopes := role.scopes + [scope])]), t, row) <==>
            MaySee(user.(roles := user.roles + [role]), t, row)
  {
    var wider := role.(scopes := role.scopes + [scope]);
    var a, b := user.(roles := user.roles + [wider]), user.(roles := user.roles + [role]);
    forall rule ensures RoleGrants(wider, rule) <==> RoleGrants(role, rule) {
      if x :| x in role.scopes && ScopeGrants(x, rule) {
        assert x in wider.scopes;
      }
    }
    LastRoleCounts(user, wider, role);
    SameGrantsSameView(a, b, t, row);
  }

  lemma LastRoleCounts(user: User, x: Role, y: Role)
    requires x.enabled == y.enabled && x.filtersScopes == y.filtersScopes
    requires forall rule :: RoleGrants(x, rule) <==> RoleGrants(y, rule)
    ensures SameGrants(user.(roles := user.roles + [x]), user.(roles := user.roles + [y]))
  {
    var a, b := user.(roles := user.roles + [x]), user.(roles := user.roles + [y]);
    assert forall z :: z in a.roles <==> z in user.roles || z == x;
    assert forall z :: z in b.roles <==> z in user.roles || z == y;
    forall rule ensures Grants(a, rule) <==> Grants(b, rule) {
    }
  }

  /** Some enabled role has an enabled scope with the rule. */
  ghost predicate HoldsRule(user: User, rule: Rule) {
    exists i, j :: HoldsAt(user, i, j, rule)
  }

  ghost predicate HoldsAt(user: User, i: int, j: int, rule: Rule) {
    && 0 <= i < |user.roles| && 0 <= j < |user.roles[i].scopes|
    && user.roles[i].enabled && user.roles[i].scopes[j].enabled && HasRule(rule) in user.roles[i].scopes[j].rules
  }

  lemma HeldIsGranted(user: User, rule: Rule)
    ensures HoldsRule(user, rule) <==> Grants(user, rule)
  {
    if Grants(user, rule) {
      var role :| role in user.roles && RoleGrants(role, rule);
      var scope :| scope in role.scopes && ScopeGrants(scope, rule);
      var i :| 0 <= i < |user.roles| && user.roles[i] == role;
      var j :| 0 <= j < |role.scopes| && role.scopes[j] == scope;
      assert HoldsAt(user, i, j, rule);
    }
    if i, j :| HoldsAt(user, i, j, rule) {
      assert ScopeGrants(user.roles[i].scopes[j], rule);
      assert RoleGrants(user.roles[i], rule);
    }
  }

  /**
   * Who is filtered at all: superusers and users with an enabled role that does
   * not filter see every row; others see none without an enabled rule, and every
   * row when none of their rules tests a target.
   */
  lemma WhoIsFiltered(user: User, t: Target, row: Condition -> Truth)
    ensures user.superuser ==> MaySee(user, t, row)
    ensures (exists role :: role in user.roles && role.enabled && !role.filtersScopes) ==> MaySee(user, t, row)
    ensures !user.superuser && (forall role :: role in user.roles && role.enabled ==> role.filtersScopes) ==>
      && ((forall rule :: !HoldsRule(user, rule)) ==> !MaySee(user, t, row))
      && ((exists rule :: HoldsRule(user, rule)) ==>
           (forall rule, c :: HoldsRule(user, rule) ==> !Yields(t, rule, c)) ==> MaySee(user, t, row))
  {
    forall rule ensures HoldsRule(user, rule) <==> Grants(user, rule) {
      HeldIsGranted(user, rule);
    }
  }

  /** A rule on one existing column of one target model that compares it with one value. */
  predicate Compares(t: Target, rule: Rule) {
    && rule.model in t.models && rule.model != "__ALL__"
    && rule.column !in t.columnTemplates && rule.column in t.models[rule.model] && rule.column !in t.excluded
    && 0 <= rule.expression <= 5 && 0 <= rule.operator <= 1
  }

  /** The comparison is true on the row. */
  ghost predicate HoldsOn(t: Target, rule: Rule, row: Condition -> Truth)
    requires Compares(t, rule)
  {
    exists o :: StandsFor(t, t.models[rule.model][rule.column], rule.value, o)
      && row(Condition(rule.model, rule.column, rule.expression, [o])).True?
  }

  function UserWith(a: Rule, b: Rule): User {
    User(false, [Role(true, true, [Scope(true, [HasRule(a), HasRule(b)])])])
  }

  lemma TwoAreGranted(a: Rule, b: Rule, rule: Rule)
    ensures Grants(UserWith(a, b), rule) <==> rule == a || rule == b
  {
    var user := UserWith(a, b);
    var role := user.roles[0];
    var scope := role.scopes[0];
    assert role in user.roles && scope in role.scopes;
    assert scope.rules[0] == HasRule(a) && scope.rules[1] == HasRule(b);
  }

  function Compared(t: Target, rule: Rule): Condition
    requires Compares(t, rule)
  {
    Condition(rule.model, rule.column, rule.expression,
              [CastValue(t, t.models[rule.model][rule.column], rule.value)])
  }

  lemma ComparedHolds(t: Target, rule: Rule, row: Condition -> Truth)
    requires Compares(t, rule)
    ensures forall c :: Yields(t, rule, c) <==> c == Compared(t, rule)
    ensures HoldsOn(t, rule, row) <==> row(Compared(t, rule)).True?
  {
    var kind := t.models[rule.model][rule.column];
    assert StandsFor(t, kind, rule.value, CastValue(t, kind, rule.value));
    forall o | StandsFor(t, kind, rule.value, o) ensures o == CastValue(t, kind, rule.value) {
    }
  }

  /**
   * The two operators at work: a user with two comparisons sees the rows on
   * which both are true if the operator of both is 0, else those on which one is.
   */
  lemma TwoRulesFilter(t: Target, a: Rule, b: Rule, row: Condition -> Truth)
    requires Compares(t, a) && Compares(t, b)
    ensures MaySee(UserWith(a, b), t, row) <==>
      if a.operator == 0 && b.operator == 0 then HoldsOn(t, a, row) && HoldsOn(t, b, row)
      else HoldsOn(t, a, row) || HoldsOn(t, b, row)
  {
    var user := UserWith(a, b);
    ComparedHolds(t, a, row);
    ComparedHolds(t, b, row);
    forall op, c
      ensures Applies(user, t, op, c) <==>
        (a.operator == op && c == Compared(t, a)) || (b.operator == op && c == Compared(t, b))
    {
      TwoApply(t, a, b, op, c);
    }
    TwoAreGranted(a, b, a);
    assert user.roles[0].filtersScopes;
    assert a.operator == AND_OPERATOR || a.operator == OR_OPERATOR;
    assert Applies(user, t, a.operator, Compared(t, a)) && Applies(user, t, b.operator, Compared(t, b));
  }

  lemma TwoApply(t: Target, a: Rule, b: Rule, op: int, c: Condition)
    requires Compares(t, a) && Compares(t, b)
    ensures Applies(UserWith(a, b), t, op, c) <==>
      (a.operator == op && Yields(t, a, c)) || (b.operator == op && Yields(t, b, c))
  {
    TwoAreGranted(a, b, a);
    TwoAreGranted(a, b, b);
    forall rule | Grants(UserWith(a, b), rule) ensures rule == a || rule == b {
      TwoAreGranted(a, b, rule);
    }
  }
}
