/** The redirects and rewrites of a host: the tables they are grouped into, against one scan of the rules. */
module RulesHandler {
  import opened Collections
  import opened RouteMatcher

  /**
   * A rule is for every method when it lists none; an empty list is for no method. `goal` is what it redirects or
   * rewrites to.
   */
  datatype Rule = Rule(selector: Selector, methods: Option<seq<string>>, goal: string)

  /** A table of rules, and the methods it is asked for. */
  datatype Group = Group(methods: Option<set<string>>, table: Table<Rule>)

  function SelectorsOf(rules: seq<Rule>): (selectors: seq<Selector>)
    ensures |selectors| == |rules|
  {
    seq(|rules|, i requires 0 <= i < |rules| => rules[i].selector)
  }

  /** The rules are what their routes lead to. */
  function TargetsOf(rules: seq<Rule>): (targets: seq<Option<Rule>>)
    ensures |targets| == |rules|
  {
    seq(|rules|, i requires 0 <= i < |rules| => Some(rules[i]))
  }

  // ----- the simple form: the first rule whose verb and path match -----

  predicate AllowsMethod(rule: Rule, verb: string, upper: string -> string) {
    rule.methods.None? || exists i :: 0 <= i < |rule.methods.value| && upper(rule.methods.value[i]) == verb
  }

  /** What a rule takes from a path. A rule that is not valid matches nothing: no handler is made with it. */
  function MatchRule(rule: Rule, pathname: string, engine: Engine): Option<Hit<Rule>> {
    match Check(rule.selector, Some(rule), 0, engine)
    case Err(_) => None
    case Ok(slot) => MatchSlot(slot, pathname, engine)
  }

  function ScanRules(rules: seq<Rule>, verb: string, pathname: string, engine: Engine,
          upper: string -> string): Option<Hit<Rule>>
  {
    if rules == [] then None
    else
      var first := if AllowsMethod(rules[0], verb, upper) then MatchRule(rules[0], pathname, engine) else None;
      if first.Some? then first else ScanRules(rules[1..], verb, pathname, engine, upper)
  }

  function FirstRule(rules: seq<Rule>, verb: string, pathname: string, engine: Engine,
          upper: string -> string): Option<Hit<Rule>>
  {
    if |pathname| > ROUTE_PATH_LIMIT then None else ScanRules(rules, verb, pathname, engine, upper)
  }

  // ----- the fast form: tables -----

  /** The last group grows by a rule when neither lists methods; in all other cases the rule starts a group. */
  function AddRule(groups: seq<seq<Rule>>, rule: Rule): seq<seq<Rule>> {
    if groups == [] then [[rule]]
    else
      var last := groups[|groups| - 1];
      if rule.methods.Some? || last == [] || last[0].methods.Some? then groups + [[rule]]
      else groups[..|groups| - 1] + [last + [rule]]
  }

  function GroupRules(rules: seq<Rule>): seq<seq<Rule>> {
    if rules == [] then [] else AddRule(GroupRules(rules[..|rules| - 1]), rules[|rules| - 1])
  }

  /** The tables of the groups in their order, or what the first rule that is not valid throws. */
  function CreateGroup(rules: seq<Rule>, engine: Engine, upper: string -> string): Result<Group>
    requires rules != []
  {
    match Slots(SelectorsOf(rules), TargetsOf(rules), engine)
    case Err(error) => Err(error)
    case Ok(slots) =>
      var methods := if rules[0].methods.None? then None else Some(set verb <- rules[0].methods.value :: upper(verb));
      Ok(Group(methods, TableOf(slots)))
  }

  predicate NoneEmpty(groups: seq<seq<Rule>>) {
    forall i :: 0 <= i < |groups| ==> groups[i] != []
  }

  function CreateGroups(groups: seq<seq<Rule>>, engine: Engine, upper: string -> string): Result<seq<Group>>
    requires NoneEmpty(groups)
  {
    if groups == [] then Ok([])
    else
      match CreateGroup(groups[0], engine, upper)
      case Err(error) => Err(error)
      case Ok(group) =>
        match CreateGroups(groups[1..], engine, upper)
        case Err(error) => Err(error)
        case Ok(rest) => Ok([group] + rest)
  }

  function AskGroup(group: Group, verb: string, pathname: string, engine: Engine): Option<Hit<Rule>> {
    if group.methods.None? || verb in group.methods.value then Lookup(group.table, pathname, engine) else None
  }

  /** The answer of the first group that has one. */
  function FindRule(groups: seq<Group>, verb: string, pathname: string, engine: Engine): Option<Hit<Rule>> {
    if groups == [] then None
    else
      var found := FindRule(groups[..|groups| - 1], verb, pathname, engine);
      if found.Some? then found else AskGroup(groups[|groups| - 1], verb, pathname, engine)
  }

  // ----- the grouping -----

  /** All of its rules are for the same methods: it is one rule, or none of them lists any. */
  predicate IsUniform(group: seq<Rule>) {
    group != [] && (|group| == 1 || forall i :: 0 <= i < |group| ==> group[i].methods.None?)
  }

  predicate IsOpen(group: seq<Rule>) {
    group != [] && group[0].methods.None?
  }

  lemma AddedAtTheEnd(groups: seq<seq<Rule>>, rule: Rule)
    ensures Flatten(AddRule(groups, rule)) == Flatten(groups) + [rule]
  {
    hide Flatten;
    FlattenPush(groups, [rule]);
    if groups == [] {
      assert groups + [[rule]] == [[rule]];
    } else {
      var init, last := groups[..|groups| - 1], groups[|groups| - 1];
      FlattenPush(init, last);
      FlattenPush(init, last + [rule]);
      assert init + [last] == groups;
      assert Flatten(init) + (last + [rule]) == (Flatten(init) + last) + [rule];
    }
  }

  /** Flattening the groups gives the rules back, in their order. */
  lemma {:induction false} GroupingKeepsTheRules(rules: seq<Rule>)
    ensures Flatten(GroupRules(rules)) == rules
  {
    hide AddRule, Flatten;
    if rules == [] {
      NothingFlattens();
    } else {
      GroupingKeepsTheRules(rules[..|rules| - 1]);
      AddedAtTheEnd(GroupRules(rules[..|rules| - 1]), rules[|rules| - 1]);
    }
  }

  lemma NothingFlattens()
    ensures Flatten<Rule>([]) == []
  {
  }

  /**
   * A group is one rule, or rules without methods only, and no two groups of rules without methods follow each other.
   */
  ghost predicate AreTables(groups: seq<seq<Rule>>) {
    && (forall i :: 0 <= i < |groups| ==> IsUniform(groups[i]))
    && forall i, j :: 0 <= i < j < |groups| && j == i + 1 ==> !(IsOpen(groups[i]) && IsOpen(groups[j]))
  }

  lemma AddRuleKeepsTables(groups: seq<seq<Rule>>, rule: Rule)
    requires AreTables(groups)
    ensures AreTables(AddRule(groups, rule))
  {
    if groups != [] {
      assert IsUniform(groups[|groups| - 1]);
    }
  }

  /** The rules without methods between two with methods are always one table. */
  lemma {:induction false} GroupsAreTables(rules: seq<Rule>)
    ensures AreTables(GroupRules(rules))
    ensures NoneEmpty(GroupRules(rules))
  {
    hide AddRule, IsOpen;
    if rules != [] {
      GroupsAreTables(rules[..|rules| - 1]);
      AddRuleKeepsTables(GroupRules(rules[..|rules| - 1]), rules[|rules| - 1]);
    }
  }

  // ----- the tables find the rule of the scan -----

  /** The position of a route does not decide whether it can be used. */
  lemma CheckAnywhere(rule: Rule, position: nat, engine: Engine)
    ensures match Check(rule.selector, Some(rule), position, engine)
      case Ok(slot) => Check(rule.selector, Some(rule), 0, engine) == Ok(slot)
      case Err(_) => Check(rule.selector, Some(rule), 0, engine).Err?
  {
  }

  predicate IsUsable(rule: Rule, engine: Engine) {
    Check(rule.selector, Some(rule), 0, engine).Ok?
  }

  predicate AllUsable(rules: seq<Rule>, engine: Engine) {
    forall i :: 0 <= i < |rules| ==> IsUsable(rules[i], engine)
  }

  /** The slots of a table of rules are the rules, one by one. */
  lemma SlotsOfRules(rules: seq<Rule>, engine: Engine)
    ensures Slots(SelectorsOf(rules), TargetsOf(rules), engine).Ok? <==> AllUsable(rules, engine)
    ensures match Slots(SelectorsOf(rules), TargetsOf(rules), engine)
      case Ok(slots) => |slots| == |rules| && forall i :: 0 <= i < |rules| ==>
        Check(rules[i].selector, Some(rules[i]), 0, engine) == Ok(slots[i])
      case Err(_) => true
  {
    hide Check, Slots;
    var selectors, targets := SelectorsOf(rules), TargetsOf(rules);
    SlotsMeaning(selectors, targets, engine);
    forall i | 0 <= i < |rules|
      ensures IsUsable(rules[i], engine) <==> Check(selectors[i], targets[i], i, engine).Ok?
      ensures IsUsable(rules[i], engine) ==>
        Check(rules[i].selector, Some(rules[i]), 0, engine) == Check(selectors[i], targets[i], i, engine)
    {
      CheckAnywhere(rules[i], i, engine);
    }
    match Slots(selectors, targets, engine)
    case Ok(slots) =>
    case Err(error) =>
      var i :| 0 <= i < |rules| && Check(selectors[i], targets[i], i, engine) == Err(error);
      assert !IsUsable(rules[i], engine);
  }

  /** A scan of the slots is a scan of the rules, when all of them are for the method. */
  lemma {:induction false} ScanOfAllowed(rules: seq<Rule>, slots: seq<Slot<Rule>>, verb: string, pathname: string,
          engine: Engine, upper: string -> string)
    requires |slots| == |rules| && forall i :: 0 <= i < |rules| ==>
      Check(rules[i].selector, Some(rules[i]), 0, engine) == Ok(slots[i])
    requires forall i :: 0 <= i < |rules| ==> AllowsMethod(rules[i], verb, upper)
    ensures Scan(slots, pathname, engine) == ScanRules(rules, verb, pathname, engine, upper)
  {
    hide Check, MatchSlot, AllowsMethod;
    if rules != [] {
      ScanOfAllowed(rules[1..], slots[1..], verb, pathname, engine, upper);
    }
  }

  /** A rule that is not for the method is not asked. */
  lemma ScanOfOther(rule: Rule, verb: string, pathname: string, engine: Engine, upper: string -> string)
    requires !AllowsMethod(rule, verb, upper)
    ensures ScanRules([rule], verb, pathname, engine, upper) == None
  {
    assert [rule][1..] == [];
  }

  lemma GroupIsTheScan(rules: seq<Rule>, verb: string, pathname: string, engine: Engine, upper: string -> string)
    requires IsUniform(rules) && CreateGroup(rules, engine, upper).Ok?
    ensures AskGroup(CreateGroup(rules, engine, upper).value, verb, pathname, engine)
         == FirstRule(rules, verb, pathname, engine, upper)
  {
    hide Slots, TableOf, Lookup, Scan, ScanRules, Check;
    var slots := Slots(SelectorsOf(rules), TargetsOf(rules), engine).value;
    SlotsOfRules(rules, engine);
    TableIsTheScan(slots, pathname, engine);
    if AllowsMethod(rules[0], verb, upper) {
      ScanOfAllowed(rules, slots, verb, pathname, engine, upper);
    } else {
      assert rules == [rules[0]];
      ScanOfOther(rules[0], verb, pathname, engine, upper);
    }
  }

  lemma {:induction false} ScanRulesConcat(first: seq<Rule>, second: seq<Rule>, verb: string, pathname: string,
          engine: Engine, upper: string -> string)
    ensures ScanRules(first + second, verb, pathname, engine, upper)
         == OrElse(ScanRules(first, verb, pathname, engine, upper), ScanRules(second, verb, pathname, engine, upper))
  {
    hide AllowsMethod, MatchRule;
    if first == [] {
      assert first + second == second;
    } else {
      assert (first + second)[1..] == first[1..] + second;
      ScanRulesConcat(first[1..], second, verb, pathname, engine, upper);
    }
  }

  lemma {:induction false} FindRuleConcat(first: seq<Group>, second: seq<Group>, verb: string, pathname: string,
          engine: Engine)
    ensures FindRule(first + second, verb, pathname, engine)
         == OrElse(FindRule(first, verb, pathname, engine), FindRule(second, verb, pathname, engine))
    decreases |second|
  {
    hide AskGroup;
    if second == [] {
      assert first + second == first;
    } else {
      var init := second[..|second| - 1];
      assert (first + second)[..|first + second| - 1] == first + init;
      FindRuleConcat(first, init, verb, pathname, engine);
    }
  }

  lemma {:induction false} GroupsAreTheScan(groups: seq<seq<Rule>>, verb: string, pathname: string, engine: Engine,
          upper: string -> string)
    requires forall i :: 0 <= i < |groups| ==> IsUniform(groups[i])
    requires NoneEmpty(groups) && CreateGroups(groups, engine, upper).Ok?
    ensures FindRule(CreateGroups(groups, engine, upper).value, verb, pathname, engine)
         == FirstRule(Flatten(groups), verb, pathname, engine, upper)
  {
    hide CreateGroup, AskGroup, ScanRules, IsUniform;
    if groups == [] {
      NoRules(verb, pathname, engine, upper);
    } else {
      var group := CreateGroup(groups[0], engine, upper).value;
      var rest := CreateGroups(groups[1..], engine, upper).value;
      GroupIsTheScan(groups[0], verb, pathname, engine, upper);
      GroupsAreTheScan(groups[1..], verb, pathname, engine, upper);
      FindRuleConcat([group], rest, verb, pathname, engine);
      assert [group][..0] == [];
      ScanRulesConcat(groups[0], Flatten(groups[1..]), verb, pathname, engine, upper);
    }
  }

  lemma NoRules(verb: string, pathname: string, engine: Engine, upper: string -> string)
    ensures ScanRules([], verb, pathname, engine, upper) == None
  {
  }

  /** What the handler is made of, or what making it throws. */
  function CreateHandler(rules: seq<Rule>, engine: Engine, upper: string -> string): Result<seq<Group>> {
    GroupsAreTables(rules);
    CreateGroups(GroupRules(rules), engine, upper)
  }

  /**
   * Grouping the rules into tables changes nothing: for every method and path the handler follows the first rule, in
   * the order written, whose method and path match.
   */
  lemma RulesAreTheScan(rules: seq<Rule>, verb: string, pathname: string, engine: Engine, upper: string -> string)
    requires CreateHandler(rules, engine, upper).Ok?
    ensures FindRule(CreateHandler(rules, engine, upper).value, verb, pathname, engine)
         == FirstRule(rules, verb, pathname, engine, upper)
  {
    hide GroupRules, CreateGroups;
    GroupsAreTables(rules);
    GroupingKeepsTheRules(rules);
    GroupsAreTheScan(GroupRules(rules), verb, pathname, engine, upper);
  }

  lemma GroupIsUsable(rules: seq<Rule>, engine: Engine, upper: string -> string)
    requires rules != []
    ensures CreateGroup(rules, engine, upper).Ok? <==> AllUsable(rules, engine)
  {
    hide Slots, TableOf, AllUsable;
    SlotsOfRules(rules, engine);
  }

  lemma {:induction false} GroupsAreUsable(groups: seq<seq<Rule>>, engine: Engine, upper: string -> string)
    requires NoneEmpty(groups)
    ensures CreateGroups(groups, engine, upper).Ok? <==>
      AllUsable(Flatten(groups), engine)
  {
    hide AllUsable, CreateGroup;
    if groups == [] {
      NoneToUse(engine);
    } else {
      GroupIsUsable(groups[0], engine, upper);
      GroupsAreUsable(groups[1..], engine, upper);
      AllUsableConcat(groups[0], Flatten(groups[1..]), engine);
    }
  }

  lemma NoneToUse(engine: Engine)
    ensures AllUsable([], engine)
  {
  }

  lemma AllUsableConcat(first: seq<Rule>, second: seq<Rule>, engine: Engine)
    ensures AllUsable(first + second, engine) <==> AllUsable(first, engine) && AllUsable(second, engine)
  {
    hide IsUsable;
    var all := first + second;
    assert forall i :: 0 <= i < |first| ==> all[i] == first[i];
    assert forall i :: 0 <= i < |second| ==> all[|first| + i] == second[i];
  }

  /** A handler is made exactly when every rule on its own is a valid route. */
  lemma HandlerIsMade(rules: seq<Rule>, engine: Engine, upper: string -> string)
    ensures CreateHandler(rules, engine, upper).Ok? <==> AllUsable(rules, engine)
  {
    hide GroupRules, CreateGroups, AllUsable;
    GroupsAreTables(rules);
    GroupingKeepsTheRules(rules);
    GroupsAreUsable(GroupRules(rules), engine, upper);
  }
}
