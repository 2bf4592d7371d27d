/** The routes of a server compiled into a map of paths and a list of patterns, against asking them one by one. */
module RouteMatcher {
  import opened Collections

  const ROUTE_PATH_LIMIT := 2048
  const ROUTE_PATTERN_FLAGS: seq<char> := ['i', 's', 'u', 'v']

  /** A property of a route as it came from the configuration: it may be missing, or not be a string. */
  datatype Field = Missing | Text(text: string) | NotText

  /** No flags are the empty string. */
  datatype Selector = Selector(path: Field, pattern: Field, flags: string)

  /** The named groups of a match, if the pattern has any. A group outside of the alternative that matched is none. */
  type Groups = Option<map<string, Option<string>>>

  type Parameters = map<string, string>

  /**
   * The regular expressions: which ones can be compiled, and what a path gives that one of them matches from start to
   * end.
   */
  datatype Engine = Engine(valid: (string, string) -> bool, exec: (string, string, string) -> Option<Groups>)

  /** Why a route cannot be used, with its position. */
  datatype Error =
    | NoTarget(position: nat)
    | PathAndPattern(position: nat)
    | BadPath(position: nat)
    | NoSelector(position: nat)
    | UnknownFlag(position: nat, flag: char)
    | BadPattern(position: nat)

  datatype Result<T> = Ok(value: T) | Err(error: Error)

  /** What matched: the target of the route and the parameters its pattern took from the path. */
  datatype Hit<T> = Hit(target: T, parameters: Option<Parameters>)

  // ----- one route -----

  /** A route that passed its checks. */
  datatype Slot<T> = OnPath(path: string, target: T) | OnPattern(pattern: string, flags: string, target: T)

  function FirstUnknownFlag(flags: string): Option<char> {
    if flags == "" then None
    else if flags[0] !in ROUTE_PATTERN_FLAGS then Some(flags[0])
    else FirstUnknownFlag(flags[1..])
  }

  predicate IsPath(path: Field) {
    path.Text? && "/" <= path.text && |path.text| <= ROUTE_PATH_LIMIT
  }

  /** The checks of a route, in their order. There is no target when the resolver threw. */
  function Check<T>(route: Selector, target: Option<T>, position: nat, engine: Engine): Result<Slot<T>> {
    if target.None? then Err(NoTarget(position))
    else if !route.path.Missing? && !route.pattern.Missing? then Err(PathAndPattern(position))
    else if !route.path.Missing? then
      if IsPath(route.path) then Ok(OnPath(route.path.text, target.value)) else Err(BadPath(position))
    else if !route.pattern.Text? then Err(NoSelector(position))
    else
      match FirstUnknownFlag(route.flags)
      case Some(flag) => Err(UnknownFlag(position, flag))
      case None =>
        if engine.valid(route.pattern.text, route.flags) then
          Ok(OnPattern(route.pattern.text, route.flags, target.value))
        else Err(BadPattern(position))
  }

  function ParametersOf(groups: map<string, Option<string>>): Parameters {
    map name | name in groups && groups[name].Some? :: groups[name].value
  }

  function HitOf<T>(target: T, groups: Groups): Hit<T> {
    Hit(target, if groups.Some? then Some(ParametersOf(groups.value)) else None)
  }

  function MatchSlot<T>(slot: Slot<T>, pathname: string, engine: Engine): Option<Hit<T>> {
    match slot
    case OnPath(path, target) => if path == pathname then Some(Hit(target, None)) else None
    case OnPattern(pattern, flags, target) =>
      match engine.exec(pattern, flags, pathname)
      case None => None
      case Some(groups) => Some(HitOf(target, groups))
  }

  // ----- the simple form: one by one, in the order of the configuration -----

  function Scan<T>(slots: seq<Slot<T>>, pathname: string, engine: Engine): Option<Hit<T>> {
    if slots == [] then None
    else
      var first := MatchSlot(slots[0], pathname, engine);
      if first.Some? then first else Scan(slots[1..], pathname, engine)
  }

  /** The first route that matches decides; a path that is too long matches none. */
  function FirstMatch<T>(slots: seq<Slot<T>>, pathname: string, engine: Engine): Option<Hit<T>> {
    if |pathname| > ROUTE_PATH_LIMIT then None else Scan(slots, pathname, engine)
  }

  function OrElse<T>(first: Option<T>, second: Option<T>): Option<T> {
    if first.Some? then first else second
  }

  lemma {:induction false} ScanConcat<T>(first: seq<Slot<T>>, second: seq<Slot<T>>, pathname: string, engine: Engine)
    ensures Scan(first + second, pathname, engine)
      == OrElse(Scan(first, pathname, engine), Scan(second, pathname, engine))
  {
    if first == [] {
      assert first + second == second;
    } else {
      assert (first + second)[1..] == first[1..] + second;
      ScanConcat(first[1..], second, pathname, engine);
    }
  }

  lemma ScanPush<T>(slots: seq<Slot<T>>, slot: Slot<T>, pathname: string, engine: Engine)
    ensures Scan(slots + [slot], pathname, engine)
      == OrElse(Scan(slots, pathname, engine), MatchSlot(slot, pathname, engine))
  {
    hide MatchSlot;
    ScanConcat(slots, [slot], pathname, engine);
    assert [slot][1..] == [];
    assert Scan<T>([], pathname, engine) == None;
  }

  /** The slots of the routes, or why the first route that cannot be used is refused. */
  function Slots<T>(routes: seq<Selector>, targets: seq<Option<T>>, engine: Engine): Result<seq<Slot<T>>>
    requires |targets| == |routes|
    decreases |routes|
  {
    if routes == [] then Ok([])
    else
      var last := |routes| - 1;
      match Slots(routes[..last], targets[..last], engine)
      case Err(error) => Err(error)
      case Ok(slots) =>
        match Check(routes[last], targets[last], last, engine)
        case Err(error) => Err(error)
        case Ok(slot) => Ok(slots + [slot])
  }

  /** The scan finds the first slot that matches, and nothing when none does. */
  lemma {:induction false} ScanFindsTheFirst<T>(slots: seq<Slot<T>>, pathname: string, engine: Engine)
    ensures Scan(slots, pathname, engine).None?
      <==> forall i :: 0 <= i < |slots| ==> MatchSlot(slots[i], pathname, engine).None?
    ensures Scan(slots, pathname, engine).Some? ==> exists i ::
      && 0 <= i < |slots| && MatchSlot(slots[i], pathname, engine) == Scan(slots, pathname, engine)
      && forall j :: 0 <= j < i ==> MatchSlot(slots[j], pathname, engine).None?
  {
    hide MatchSlot;
    if slots != [] {
      if MatchSlot(slots[0], pathname, engine).None? {
        ScanFindsTheFirst(slots[1..], pathname, engine);
        if Scan(slots[1..], pathname, engine).Some? {
          var i :| 0 <= i < |slots[1..]| && MatchSlot(slots[1..][i], pathname, engine)
            == Scan(slots[1..], pathname, engine)
            && forall j :: 0 <= j < i ==> MatchSlot(slots[1..][j], pathname, engine).None?;
          assert forall j :: 0 < j < i + 1 ==> slots[j] == slots[1..][j - 1];
          assert MatchSlot(slots[i + 1], pathname, engine) == Scan(slots, pathname, engine);
        } else {
          assert forall j :: 0 < j < |slots| ==> slots[j] == slots[1..][j - 1];
        }
      } else {
        assert MatchSlot(slots[0], pathname, engine) == Scan(slots, pathname, engine);
      }
    }
  }

  /** The routes can be used when each of them can; otherwise the error is the one of the first that cannot. */
  lemma {:induction false} SlotsMeaning<T>(routes: seq<Selector>, targets: seq<Option<T>>, engine: Engine)
    requires |targets| == |routes|
    ensures match Slots(routes, targets, engine)
      case Ok(slots) =>
        |slots| == |routes| && forall i :: 0 <= i < |routes| ==> Check(routes[i], targets[i], i, engine) == Ok(slots[i])
      case Err(error) =>
        exists i :: 0 <= i < |routes| && Check(routes[i], targets[i], i, engine) == Err(error)
          && forall j :: 0 <= j < i ==> Check(routes[j], targets[j], j, engine).Ok?
    decreases |routes|
  {
    hide Check;
    if routes != [] {
      var last := |routes| - 1;
      SlotsMeaning(routes[..last], targets[..last], engine);
      match Slots(routes[..last], targets[..last], engine)
      case Err(error) =>
        var i :| 0 <= i < last && Check(routes[..last][i], targets[..last][i], i, engine) == Err(error)
          && forall j :: 0 <= j < i ==> Check(routes[..last][j], targets[..last][j], j, engine).Ok?;
        assert Check(routes[i], targets[i], i, engine) == Err(error);
      case Ok(slots) =>
        assert forall j :: 0 <= j < last ==> routes[..last][j] == routes[j] && targets[..last][j] == targets[j];
    }
  }

  // ----- the fast form: a map, and a list that is cut off -----

  datatype OfPath<T> = OfPath(position: nat, target: T)

  datatype OfPattern<T> = OfPattern(position: nat, pattern: string, flags: string, target: T)

  datatype Table<T> = Table(paths: map<string, OfPath<T>>, patterns: seq<OfPattern<T>>)

  /** The first position of a path is the one that is kept; every pattern is added at the end. */
  function Add<T>(table: Table<T>, slot: Slot<T>, position: nat): Table<T> {
    match slot
    case OnPath(path, target) =>
      if path in table.paths then table else table.(paths := table.paths[path := OfPath(position, target)])
    case OnPattern(pattern, flags, target) =>
      table.(patterns := table.patterns + [OfPattern(position, pattern, flags, target)])
  }

  function TableOf<T>(slots: seq<Slot<T>>): Table<T> {
    if slots == [] then Table(map[], []) else Add(TableOf(slots[..|slots| - 1]), slots[|slots| - 1], |slots| - 1)
  }

  /** The first of the patterns that matches, of the ones that do not come after the path. */
  function TryPatterns<T>(patterns: seq<OfPattern<T>>, before: Option<nat>, pathname: string,
          engine: Engine): Option<Hit<T>>
  {
    if patterns == [] || (before.Some? && patterns[0].position > before.value) then None
    else
      match engine.exec(patterns[0].pattern, patterns[0].flags, pathname)
      case Some(groups) => Some(HitOf(patterns[0].target, groups))
      case None => TryPatterns(patterns[1..], before, pathname, engine)
  }

  function Exact<T>(table: Table<T>, pathname: string): Option<OfPath<T>> {
    if pathname in table.paths then Some(table.paths[pathname]) else None
  }

  function Lookup<T>(table: Table<T>, pathname: string, engine: Engine): Option<Hit<T>> {
    if |pathname| > ROUTE_PATH_LIMIT then None
    else
      var exact := Exact(table, pathname);
      var before := if exact.Some? then Some(exact.value.position) else None;
      OrElse(TryPatterns(table.patterns, before, pathname, engine),
             if exact.Some? then Some(Hit(exact.value.target, None)) else None)
  }

  /** Every position in the table is one of the routes added so far. */
  ghost predicate IsBelow<T>(table: Table<T>, bound: nat) {
    && (forall path :: path in table.paths ==> table.paths[path].position < bound)
    && forall i :: 0 <= i < |table.patterns| ==> table.patterns[i].position < bound
  }

  lemma {:induction false} PositionsAreBelow<T>(slots: seq<Slot<T>>)
    ensures IsBelow(TableOf(slots), |slots|)
  {
    if slots != [] {
      PositionsAreBelow(slots[..|slots| - 1]);
    }
  }

  /** A cut behind all of the patterns cuts none. */
  lemma {:induction false} CutBehind<T>(patterns: seq<OfPattern<T>>, before: nat, pathname: string, engine: Engine)
    requires forall i :: 0 <= i < |patterns| ==> patterns[i].position <= before
    ensures TryPatterns(patterns, Some(before), pathname, engine) == TryPatterns(patterns, None, pathname, engine)
  {
    if patterns != [] {
      CutBehind(patterns[1..], before, pathname, engine);
    }
  }

  /** One more pattern at the end is tried when none before it matched, unless it comes after the path. */
  lemma {:induction false} TryOneMore<T>(patterns: seq<OfPattern<T>>, more: OfPattern<T>, before: Option<nat>,
          pathname: string, engine: Engine)
    requires before.None? || more.position > before.value
    ensures TryPatterns(patterns + [more], before, pathname, engine)
         == if before.Some? then TryPatterns(patterns, before, pathname, engine)
            else OrElse(TryPatterns(patterns, None, pathname, engine),
                        MatchSlot(OnPattern(more.pattern, more.flags, more.target), pathname, engine))
  {
    if patterns == [] {
      assert patterns + [more] == [more];
    } else {
      assert (patterns + [more])[1..] == patterns[1..] + [more];
      TryOneMore(patterns[1..], more, before, pathname, engine);
    }
  }

  /**
   * Compiling the routes changes nothing: for every path, the map and the cut list of patterns find the first route of
   * the configuration that matches, whichever kind it is.
   */
  lemma {:induction false} TableIsTheScan<T>(slots: seq<Slot<T>>, pathname: string, engine: Engine)
    ensures Lookup(TableOf(slots), pathname, engine) == FirstMatch(slots, pathname, engine)
  {
    hide Scan, HitOf;
    if |pathname| <= ROUTE_PATH_LIMIT {
      if slots == [] {
        NothingMatchesNothing<T>(pathname, engine);
      } else {
        var before, slot := slots[..|slots| - 1], slots[|slots| - 1];
        var table := TableOf(before);
        TableIsTheScan(before, pathname, engine);
        PositionsAreBelow(before);
        ScanPush(before, slot, pathname, engine);
        assert before + [slot] == slots;
        match slot
        case OnPath(path, target) =>
          if path == pathname && path !in table.paths {
            CutBehind(table.patterns, |before|, pathname, engine);
          }
        case OnPattern(pattern, flags, target) =>
          var exact := Exact(table, pathname);
          TryOneMore(table.patterns, OfPattern(|before|, pattern, flags, target),
                     if exact.Some? then Some(exact.value.position) else None, pathname, engine);
      }
    }
  }

  lemma NothingMatchesNothing<T>(pathname: string, engine: Engine)
    ensures Scan<T>([], pathname, engine) == None
  {
  }

  // ----- what the routes mean, told without the checks and the table -----

  predicate AreFlags(flags: string) {
    forall i :: 0 <= i < |flags| ==> flags[i] in "isuv"
  }

  predicate IsTheFirstUnknown(flags: string, flag: char) {
    exists i :: 0 <= i < |flags| && flags[i] == flag && flag !in "isuv" && AreFlags(flags[..i])
  }

  /** It starts with a slash and is not too long. */
  predicate IsGoodPath(path: Field) {
    path.Text? && path.text != "" && path.text[0] == '/' && |path.text| <= 2048
  }

  /** A route has a target, and a path or a pattern but not both. */
  predicate IsUsable<T>(route: Selector, target: Option<T>, engine: Engine) {
    && target.Some?
    && if route.path == Missing then
         route.pattern.Text? && AreFlags(route.flags) && engine.valid(route.pattern.text, route.flags)
       else route.pattern == Missing && IsGoodPath(route.path)
  }

  /** Why a route cannot be used: the first of the reasons, in this order. */
  predicate IsReason<T>(error: Error, route: Selector, target: Option<T>, position: nat, engine: Engine) {
    && error.position == position
    && match error
       case NoTarget(_) => target == None
       case PathAndPattern(_) => target.Some? && route.path != Missing && route.pattern != Missing
       case BadPath(_) => target.Some? && route.path != Missing && route.pattern == Missing && !IsGoodPath(route.path)
       case NoSelector(_) =>
         target.Some? && route.path == Missing && (route.pattern == Missing || route.pattern == NotText)
       case UnknownFlag(_, flag) =>
         target.Some? && route.path == Missing && route.pattern.Text? && IsTheFirstUnknown(route.flags, flag)
       case BadPattern(_) =>
         && target.Some? && route.path == Missing && route.pattern.Text? && AreFlags(route.flags)
         && !engine.valid(route.pattern.text, route.flags)
  }

  predicate RouteMatches(route: Selector, pathname: string, engine: Engine) {
    match route.path
    case Text(path) => path == pathname
    case _ => route.pattern.Text? && engine.exec(route.pattern.text, route.flags, pathname).Some?
  }

  /**
   * A path gives its target alone, a pattern with groups also what they took from the path, for those that took part.
   */
  ghost predicate IsItsHit<T>(hit: Hit<T>, route: Selector, target: Option<T>, pathname: string, engine: Engine) {
    && Some(hit.target) == target
    && var groups := if route.path.Text? || !route.pattern.Text? then None
         else engine.exec(route.pattern.text, route.flags, pathname);
       if groups.None? || groups.value.None? then hit.parameters == None
       else
         && hit.parameters.Some?
         && forall name, value ::
              name in hit.parameters.value && hit.parameters.value[name] == value
              <==> name in groups.value.value && groups.value.value[name] == Some(value)
  }

  lemma {:induction false} FlagsMean(flags: string)
    ensures FirstUnknownFlag(flags).None? <==> AreFlags(flags)
    ensures FirstUnknownFlag(flags).Some? ==> IsTheFirstUnknown(flags, FirstUnknownFlag(flags).value)
  {
    if flags != "" && flags[0] in "isuv" {
      var rest := flags[1..];
      FlagsMean(rest);
      assert forall i :: 0 < i < |flags| ==> flags[i] == rest[i - 1];
      if FirstUnknownFlag(rest).Some? {
        var i :| 0 <= i < |rest| && rest[i] == FirstUnknownFlag(rest).value && rest[i] !in "isuv"
          && AreFlags(rest[..i]);
        assert flags[..i + 1] == [flags[0]] + rest[..i];
        assert flags[i + 1] == rest[i] && AreFlags(flags[..i + 1]);
      } else {
        assert forall i :: 0 <= i < |rest| ==> rest[i] in "isuv";
      }
    } else if flags != "" {
      assert flags[..0] == "" && flags[0] == FirstUnknownFlag(flags).value;
    }
  }

  /** It is kept when it can be used, and refused for its reason when not. */
  ghost predicate IsCheckedRight<T>(checked: Result<Slot<T>>, route: Selector, target: Option<T>, position: nat,
          engine: Engine)
  {
    if checked.Ok? then IsUsable(route, target, engine)
    else !IsUsable(route, target, engine) && IsReason(checked.error, route, target, position, engine)
  }

  lemma CheckMeans<T>(route: Selector, target: Option<T>, position: nat, engine: Engine)
    ensures IsCheckedRight(Check(route, target, position, engine), route, target, position, engine)
  {
    hide FirstUnknownFlag, AreFlags, IsTheFirstUnknown;
    FlagsMean(route.flags);
    if route.path.Text? && |route.path.text| > 0 {
      assert "/" <= route.path.text <==> route.path.text[0] == '/';
    }
  }

  lemma SlotMeans<T>(route: Selector, target: Option<T>, position: nat, pathname: string, engine: Engine)
    requires Check(route, target, position, engine).Ok?
    ensures GivesWhatItsRouteDoes(Check(route, target, position, engine).value, route, target, pathname, engine)
  {
    hide FirstUnknownFlag;
  }

  /** The route matches, and no route before it does. */
  predicate IsTheFirst(routes: seq<Selector>, i: int, pathname: string, engine: Engine) {
    && 0 <= i < |routes| && RouteMatches(routes[i], pathname, engine)
    && forall j :: 0 <= j < i ==> !RouteMatches(routes[j], pathname, engine)
  }

  ghost predicate IsOfTheFirst<T>(hit: Hit<T>, routes: seq<Selector>, targets: seq<Option<T>>, pathname: string,
          engine: Engine)
    requires |targets| == |routes|
  {
    exists i :: IsTheFirst(routes, i, pathname, engine) && IsItsHit(hit, routes[i], targets[i], pathname, engine)
  }

  /** An error is that of the first route that cannot be used. */
  ghost predicate IsTheFirstError<T>(error: Error, routes: seq<Selector>, targets: seq<Option<T>>, engine: Engine)
    requires |targets| == |routes|
  {
    var i := error.position;
    && i < |routes| && IsReason(error, routes[i], targets[i], i, engine)
    && forall j :: 0 <= j < i ==> IsUsable(routes[j], targets[j], engine)
  }

  ghost predicate IsFound<T>(found: Option<Hit<T>>, routes: seq<Selector>, targets: seq<Option<T>>, pathname: string,
          engine: Engine)
    requires |targets| == |routes|
  {
    if |pathname| <= 2048 && exists i :: IsTheFirst(routes, i, pathname, engine) then
      found.Some? && IsOfTheFirst(found.value, routes, targets, pathname, engine)
    else found.None? && (|pathname| <= 2048 ==>
           forall i :: 0 <= i < |routes| ==> !RouteMatches(routes[i], pathname, engine))
  }

  /**
   * The matcher exists exactly when every route can be used; then a path of at most 2048 characters gets what the first
   * route that matches it gives, and nothing when none does.
   */
  lemma TheFirstRouteDecides<T>(routes: seq<Selector>, targets: seq<Option<T>>, pathname: string, engine: Engine)
    requires |targets| == |routes|
    ensures Slots(routes, targets, engine).Ok? <==>
      forall i :: 0 <= i < |routes| ==> IsUsable(routes[i], targets[i], engine)
    ensures Slots(routes, targets, engine).Err? ==>
      IsTheFirstError(Slots(routes, targets, engine).error, routes, targets, engine)
    ensures Slots(routes, targets, engine).Ok? ==>
      IsFound(Lookup(TableOf(Slots(routes, targets, engine).value), pathname, engine), routes, targets, pathname,
        engine)
  {
    hide Check, IsReason, IsUsable, RouteMatches, IsItsHit, MatchSlot, Slots, Scan, Lookup, TableOf;
    SlotsMeaning(routes, targets, engine);
    forall i: nat | i < |routes|
      ensures IsCheckedRight(Check(routes[i], targets[i], i, engine), routes[i], targets[i], i, engine)
    {
      CheckMeans(routes[i], targets[i], i, engine);
    }
    if Slots(routes, targets, engine).Err? {
      ReasonIsAt(routes, targets, Slots(routes, targets, engine).error, engine);
    } else {
      var slots := Slots(routes, targets, engine).value;
      forall i: nat | i < |routes| ensures GivesWhatItsRouteDoes(slots[i], routes[i], targets[i], pathname, engine) {
        SlotMeans(routes[i], targets[i], i, pathname, engine);
      }
      SlotsFind(slots, routes, targets, pathname, engine);
    }
  }

  ghost predicate GivesWhatItsRouteDoes<T>(slot: Slot<T>, route: Selector, target: Option<T>, pathname: string,
          engine: Engine)
  {
    var hit := MatchSlot(slot, pathname, engine);
    && (hit.Some? <==> RouteMatches(route, pathname, engine))
    && (hit.Some? ==> IsItsHit(hit.value, route, target, pathname, engine))
  }

  lemma SlotsFind<T>(slots: seq<Slot<T>>, routes: seq<Selector>, targets: seq<Option<T>>, pathname: string,
          engine: Engine)
    requires |slots| == |routes| == |targets|
    requires forall i: nat :: i < |routes| ==>
      GivesWhatItsRouteDoes(slots[i], routes[i], targets[i], pathname, engine)
    ensures IsFound(Lookup(TableOf(slots), pathname, engine), routes, targets, pathname, engine)
  {
    hide RouteMatches, IsItsHit, MatchSlot, Scan, Lookup, TableOf;
    TableIsTheScan(slots, pathname, engine);
    ScanFindsTheFirst(slots, pathname, engine);
    if Scan(slots, pathname, engine).Some? {
      var i :| 0 <= i < |slots| && MatchSlot(slots[i], pathname, engine) == Scan(slots, pathname, engine)
        && forall j :: 0 <= j < i ==> MatchSlot(slots[j], pathname, engine).None?;
      assert GivesWhatItsRouteDoes(slots[i], routes[i], targets[i], pathname, engine);
      assert IsTheFirst(routes, i, pathname, engine);
    }
  }

  lemma ReasonIsAt<T>(routes: seq<Selector>, targets: seq<Option<T>>, error: Error, engine: Engine)
    requires |targets| == |routes|
    requires exists i ::
      && 0 <= i < |routes| && Check(routes[i], targets[i], i, engine) == Err(error)
      && forall j :: 0 <= j < i ==> Check(routes[j], targets[j], j, engine).Ok?
    ensures error.position < |routes|
      && Check(routes[error.position], targets[error.position], error.position, engine) == Err(error)
      && forall j :: 0 <= j < error.position ==> Check(routes[j], targets[j], j, engine).Ok?
  {
    hide Check, IsUsable;
    var i :| 0 <= i < |routes| && Check(routes[i], targets[i], i, engine) == Err(error)
      && forall j :: 0 <= j < i ==> Check(routes[j], targets[j], j, engine).Ok?;
    CheckMeans(routes[i], targets[i], i, engine);
  }

  // ----- building the table and asking it -----

  method CompilePattern(pattern: string, flags: string, position: nat, engine: Engine) returns (error: Option<Error>)
    ensures error.Some? <==> FirstUnknownFlag(flags).Some? || !engine.valid(pattern, flags)
    ensures FirstUnknownFlag(flags).Some? ==> error == Some(UnknownFlag(position, FirstUnknownFlag(flags).value))
    ensures error.Some? && FirstUnknownFlag(flags).None? ==> error == Some(BadPattern(position))
  {
    for i := 0 to |flags|
      invariant FirstUnknownFlag(flags) == FirstUnknownFlag(flags[i..])
    {
      if flags[i] !in ROUTE_PATTERN_FLAGS {
        return Some(UnknownFlag(position, flags[i]));
      }
      assert flags[i..][1..] == flags[i + 1..];
    }

    if !engine.valid(pattern, flags) {
      return Some(BadPattern(position));
    }
    return None;
  }

  /** The table of the routes, or the error that is thrown. The targets are what the resolver gives for the routes. */
  method CreateRouteMatcher<T>(routes: seq<Selector>, targets: seq<Option<T>>,
          engine: Engine) returns (result: Result<Table<T>>)
    requires |targets| == |routes|
    ensures result.Ok? <==> Slots(routes, targets, engine).Ok?
    ensures result.Err? ==> result.error == Slots(routes, targets, engine).error
    ensures result.Ok? ==> forall pathname ::
      Lookup(result.value, pathname, engine) == FirstMatch(Slots(routes, targets, engine).value, pathname, engine)
  {
    hide Lookup, FirstMatch, FirstUnknownFlag, Slots, TableOf;
    var paths: map<string, OfPath<T>> := map[];
    var patterns: seq<OfPattern<T>> := [];
    NoSlots<T>(engine);
    assert routes[..0] == [] && targets[..0] == [];
    for position := 0 to |routes|
      invariant Slots(routes[..position], targets[..position], engine).Ok?
      invariant |Slots(routes[..position], targets[..position], engine).value| == position
      invariant Table(paths, patterns) == TableOf(Slots(routes[..position], targets[..position], engine).value)
    {
      var route, target := routes[position], targets[position];
      SlotsPush(routes, targets, position, engine);
      var error := None;
      if target.None? {
        error := Some(NoTarget(position));
      } else if !route.path.Missing? && !route.pattern.Missing? {
        error := Some(PathAndPattern(position));
      } else if !route.path.Missing? {
        if !IsPath(route.path) {
          error := Some(BadPath(position));
        } else if route.path.text !in paths {
          paths := paths[route.path.text := OfPath(position, target.value)];
        }
      } else if !route.pattern.Text? {
        error := Some(NoSelector(position));
      } else {
        error := CompilePattern(route.pattern.text, route.flags, position, engine);
        if error.None? {
          patterns := patterns + [OfPattern(position, route.pattern.text, route.flags, target.value)];
        }
      }
      if error.Some? {
        SlotsStop(routes, targets, position + 1, engine);
        return Err(error.value);
      }
    }
    assert routes[..|routes|] == routes && targets[..|routes|] == targets;
    ghost var slots := Slots(routes, targets, engine).value;
    forall pathname ensures Lookup(Table(paths, patterns), pathname, engine) == FirstMatch(slots, pathname, engine) {
      TableIsTheScan(slots, pathname, engine);
    }
    return Ok(Table(paths, patterns));
  }

  lemma NoSlots<T>(engine: Engine)
    ensures Slots<T>([], [], engine) == Ok([]) && TableOf<T>([]) == Table(map[], [])
  {
  }

  lemma SlotsPush<T>(routes: seq<Selector>, targets: seq<Option<T>>, position: nat, engine: Engine)
    requires |targets| == |routes| && position < |routes| && Slots(routes[..position], targets[..position], engine).Ok?
    ensures var slots := Slots(routes[..position], targets[..position], engine).value;
      var after := Slots(routes[..position + 1], targets[..position + 1], engine);
      match Check(routes[position], targets[position], position, engine)
      case Err(error) => after == Err(error)
      case Ok(slot) =>
        after == Ok(slots + [slot]) && (|slots| == position ==>
          TableOf(slots + [slot]) == Add(TableOf(slots), slot, position))
  {
    hide Check, Add;
    assert routes[..position + 1][..position] == routes[..position]
      && targets[..position + 1][..position] == targets[..position];
    if Check(routes[position], targets[position], position, engine).Ok? {
      var slots, slot := Slots(routes[..position], targets[..position], engine).value,
        Check(routes[position], targets[position], position, engine).value;
      assert (slots + [slot])[..|slots|] == slots;
    }
  }

  /** The first error is the one that is thrown, whatever comes after it. */
  lemma {:induction false} SlotsStop<T>(routes: seq<Selector>, targets: seq<Option<T>>, position: nat, engine: Engine)
    requires |targets| == |routes| && position <= |routes|
      && Slots(routes[..position], targets[..position], engine).Err?
    ensures Slots(routes, targets, engine) == Slots(routes[..position], targets[..position], engine)
    decreases |routes| - position
  {
    if position == |routes| {
      assert routes[..position] == routes && targets[..position] == targets;
    } else {
      assert routes[..position + 1][..position] == routes[..position]
        && targets[..position + 1][..position] == targets[..position];
      SlotsStop(routes, targets, position + 1, engine);
    }
  }

  /** The loop ends with one match at the most, and never looks at a pattern whose position is behind the exact path. */
  method FindTarget<T>(table: Table<T>, pathname: string, engine: Engine) returns (found: Option<Hit<T>>)
    ensures found == Lookup(table, pathname, engine)
  {
    if |pathname| > ROUTE_PATH_LIMIT {
      return None;
    }

    var exact := Exact(table, pathname);
    var before := if exact.Some? then Some(exact.value.position) else None;
    var matches: seq<Hit<T>> := [];
    var i := 0;
    while i < |table.patterns| && matches == [] && !(before.Some? && table.patterns[i].position > before.value)
      invariant 0 <= i <= |table.patterns| && |matches| <= 1
      invariant matches == [] ==>
        TryPatterns(table.patterns, before, pathname, engine)
          == TryPatterns(table.patterns[i..], before, pathname, engine)
      invariant matches != [] ==> TryPatterns(table.patterns, before, pathname, engine) == Some(matches[0])
      decreases |table.patterns| - i, 1 - |matches|
    {
      var route := table.patterns[i];
      var groups := engine.exec(route.pattern, route.flags, pathname);
      if groups.Some? {
        matches := matches + [HitOf(route.target, groups.value)];
      }
      assert table.patterns[i..][1..] == table.patterns[i + 1..];
      i := i + 1;
    }

    return if matches != [] then Some(matches[0])
           else if exact.Some? then Some(Hit(exact.value.target, None))
           else None;
  }
}
