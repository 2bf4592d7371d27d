/** Virtual hosts found by a map and a list of patterns, against asking one middleware per host. */
module VirtualHosts {
  import opened Collections

  /** A host of the configuration. A handler is known by its number. */
  datatype Host = Host(hostname: string, handler: nat)

  /** A handler with the index of its host. */
  datatype Route = Route(order: nat, handler: nat)

  datatype PatternRoute = PatternRoute(route: Route, pattern: string)

  datatype RouteGroups = RouteGroups(exact: map<string, seq<Route>>, patterns: seq<PatternRoute>)

  /** How names are written in lower case, and whether the pattern made of a host name with wildcards matches a name. */
  datatype Names = Names(lower: string -> string, test: (string, string) -> bool)

  predicate HasWildcard(hostname: string) {
    '*' in hostname
  }

  // ----- the host name of a request -----

  function IndexOf(text: string, c: char, from: nat): (index: Option<nat>)
    ensures index.Some? ==> from <= index.value < |text| && text[index.value] == c
    ensures forall i :: from <= i < (if index.Some? then index.value else |text|) ==> text[i] != c
    decreases |text| - from
  {
    if from >= |text| then None else if text[from] == c then Some(from) else IndexOf(text, c, from + 1)
  }

  /** What a `Host` header names, lower case and up to the colon of the port. */
  function GetHostname(host: Option<string>, names: Names): Option<string> {
    if host.None? || host.value == "" then None
    else
      var text := host.value;
      var bracket := IndexOf(text, ']', 0);
      var from := if text[0] == '[' && bracket.Some? then bracket.value + 1 else 0;
      match IndexOf(text, ':', from)
      case None => Some(names.lower(text))
      case Some(port) => Some(names.lower(text[..port]))
  }

  lemma {:induction false} IndexOfFirst(text: string, c: char, from: nat, index: nat)
    requires from <= index < |text| && text[index] == c
    requires forall i :: from <= i < index ==> text[i] != c
    ensures IndexOf(text, c, from) == Some(index)
    decreases index - from
  {
    if from < index {
      IndexOfFirst(text, c, from + 1, index);
    }
  }

  /** A port is left out, and the colons between the brackets of an IPv6 address are not taken for one. */
  lemma PortIsLeftOut(name: string, port: string, names: Names)
    requires name != "" && if name[0] == '[' then name[|name| - 1] == ']' && ']' !in name[..|name| - 1]
      else ':' !in name
    ensures GetHostname(Some(name + ":" + port), names) == Some(names.lower(name))
    ensures GetHostname(Some(name), names) == Some(names.lower(name))
  {
    var text, last := name + ":" + port, |name| - 1;
    assert text[|name|] == ':';
    if name[0] == '[' {
      assert forall i :: 0 <= i < last ==> text[i] == name[..last][i] && name[i] == name[..last][i];
      IndexOfFirst(text, ']', 0, last);
      IndexOfFirst(name, ']', 0, last);
      IndexOfFirst(text, ':', |name|, |name|);
    } else {
      assert forall i :: 0 <= i < |name| ==> text[i] == name[i];
      IndexOfFirst(text, ':', 0, |name|);
    }
    assert text[..|name|] == name;
  }

  /** The place is between the brackets that the text starts with. */
  predicate IsBracketed(text: string, i: nat) {
    i < |text| && text[0] == '[' && ']' !in text[..i] && ']' in text[i..]
  }

  /** The place of the first colon that is not between brackets, or the end of the text. */
  predicate IsThePortsPlace(text: string, place: nat) {
    && place <= |text|
    && (place < |text| ==> text[place] == ':' && !IsBracketed(text, place))
    && forall i: nat :: i < place && text[i] == ':' ==> IsBracketed(text, i)
  }

  /** A host name is everything before it, in lower case; a request without a header, or with an empty one, has none. */
  lemma HostnameEndsAtThePort(text: string, place: nat, names: Names)
    requires text != "" && IsThePortsPlace(text, place)
    ensures GetHostname(Some(text), names) == Some(names.lower(text[..place]))
    ensures GetHostname(None, names) == None && GetHostname(Some(""), names) == None
  {
    var bracket := IndexOf(text, ']', 0);
    var from := if text[0] == '[' && bracket.Some? then bracket.value + 1 else 0;
    forall i: nat | i < |text| ensures IsBracketed(text, i) <==> i < from {
      if text[0] == '[' && bracket.Some? {
        assert i < from ==> text[i..][bracket.value - i] == ']';
        assert i >= from ==> text[..i][bracket.value] == ']';
      }
    }
    if place < |text| {
      IndexOfFirst(text, ':', from, place);
    } else {
      assert text[..place] == text;
    }
  }

  // ----- the map and the patterns -----

  function RoutesFor(exact: map<string, seq<Route>>, key: string): seq<Route> {
    if key in exact then exact[key] else []
  }

  function AddHost(groups: RouteGroups, host: Host, order: nat, names: Names): RouteGroups {
    var route := Route(order, host.handler);
    if HasWildcard(host.hostname) then groups.(patterns := groups.patterns + [PatternRoute(route, host.hostname)])
    else
      var key := names.lower(host.hostname);
      groups.(exact := groups.exact[key := RoutesFor(groups.exact, key) + [route]])
  }

  function GroupsOf(hosts: seq<Host>, names: Names): RouteGroups {
    if hosts == [] then RouteGroups(map[], [])
    else AddHost(GroupsOf(hosts[..|hosts| - 1], names), hosts[|hosts| - 1], |hosts| - 1, names)
  }

  method BuildRouteGroups(hosts: seq<Host>, names: Names) returns (groups: RouteGroups)
    ensures groups == GroupsOf(hosts, names)
  {
    var exact: map<string, seq<Route>> := map[];
    var patterns: seq<PatternRoute> := [];
    for order := 0 to |hosts|
      invariant RouteGroups(exact, patterns) == GroupsOf(hosts[..order], names)
    {
      var host := hosts[order];
      assert hosts[..order + 1][..order] == hosts[..order];
      if HasWildcard(host.hostname) {
        patterns := patterns + [PatternRoute(Route(order, host.handler), host.hostname)];
      } else {
        var key := names.lower(host.hostname);
        exact := exact[key := RoutesFor(exact, key) + [Route(order, host.handler)]];
      }
    }
    assert hosts[..|hosts|] == hosts;
    return RouteGroups(exact, patterns);
  }

  function Chosen(patterns: seq<PatternRoute>, hostname: string, names: Names): seq<Route> {
    if patterns == [] then []
    else
      var first := if names.test(patterns[0].pattern, hostname) then [patterns[0].route] else [];
      first + Chosen(patterns[1..], hostname, names)
  }

  function Insert(route: Route, routes: seq<Route>): (all: seq<Route>)
    ensures forall r :: r in all <==> r == route || r in routes
  {
    if routes == [] then [route]
    else if route.order <= routes[0].order then [route] + routes
    else [routes[0]] + Insert(route, routes[1..])
  }

  function SortByOrder(routes: seq<Route>): (sorted: seq<Route>)
    ensures forall r :: r in sorted <==> r in routes
  {
    if routes == [] then [] else Insert(routes[0], SortByOrder(routes[1..]))
  }

  /** The routes of a host name in the order of the configuration. */
  function SelectRoutes(hostname: string, groups: RouteGroups, names: Names): seq<Route> {
    var exactMatches := RoutesFor(groups.exact, hostname);
    if groups.patterns == [] then exactMatches
    else SortByOrder(exactMatches + Chosen(groups.patterns, hostname, names))
  }

  // ----- the simple form -----

  predicate MatchesHost(host: Host, hostname: string, names: Names) {
    if '*' in host.hostname then names.test(host.hostname, hostname) else names.lower(host.hostname) == hostname
  }

  /** The hosts that match, as they are listed. */
  function Matching(hosts: seq<Host>, hostname: string, names: Names): seq<Route> {
    if hosts == [] then []
    else
      var last := |hosts| - 1;
      Matching(hosts[..last], hostname, names)
        + if MatchesHost(hosts[last], hostname, names) then [Route(last, hosts[last].handler)] else []
  }

  // ----- the fast form selects what the simple one lists -----

  ghost predicate IsAscending(routes: seq<Route>) {
    forall i, j :: 0 <= i < j < |routes| ==> routes[i].order < routes[j].order
  }

  ghost predicate AllBelow(routes: seq<Route>, bound: nat) {
    forall r :: r in routes ==> r.order < bound
  }

  lemma AscendingPush(routes: seq<Route>, route: Route)
    requires IsAscending(routes) && AllBelow(routes, route.order)
    ensures IsAscending(routes + [route]) && AllBelow(routes + [route], route.order + 1)
  {
    assert forall i :: 0 <= i < |routes| ==> routes[i] in routes;
  }

  /** Ascending sequences of the same routes are the same. */
  lemma {:induction false} AscendingIsUnique(a: seq<Route>, b: seq<Route>)
    requires IsAscending(a) && IsAscending(b) && forall r :: r in a <==> r in b
    ensures a == b
  {
    if a == [] {
      HoldsItsFirst(b);
    } else if b == [] {
      HoldsItsFirst(a);
    } else {
      assert a[0] in b && b[0] in a;
      assert a[0] == b[0];
      forall r ensures r in a[1..] <==> r in b[1..] {
        TailOfAscending(a, r);
        TailOfAscending(b, r);
      }
      AscendingIsUnique(a[1..], b[1..]);
    }
  }

  lemma HoldsItsFirst(routes: seq<Route>)
    ensures routes != [] ==> routes[0] in routes
  {
  }

  lemma TailOfAscending(a: seq<Route>, r: Route)
    requires IsAscending(a) && a != []
    ensures r in a[1..] <==> r in a && r != a[0]
  {
    if r in a && r != a[0] {
      var i :| 0 <= i < |a| && a[i] == r;
      assert a[1..][i - 1] == r;
    }
    if r in a[1..] {
      var i :| 0 <= i < |a[1..]| && a[1..][i] == r;
      assert a[0].order < a[i + 1].order;
    }
  }

  ghost predicate OrdersDiffer(routes: seq<Route>) {
    forall i, j :: 0 <= i < j < |routes| ==> routes[i].order != routes[j].order
  }

  lemma {:induction false} InsertAscends(route: Route, routes: seq<Route>)
    requires IsAscending(routes) && forall r :: r in routes ==> r.order != route.order
    ensures IsAscending(Insert(route, routes))
  {
    if routes != [] && route.order > routes[0].order {
      var rest := Insert(route, routes[1..]);
      InsertAscends(route, routes[1..]);
      forall j | 0 <= j < |rest| ensures routes[0].order < rest[j].order {
        assert rest[j] in rest;
      }
    } else {
      assert forall i :: 0 <= i < |routes| ==> routes[i] in routes;
    }
  }

  lemma {:induction false} SortAscends(routes: seq<Route>)
    requires OrdersDiffer(routes)
    ensures IsAscending(SortByOrder(routes))
  {
    if routes != [] {
      SortAscends(routes[1..]);
      assert forall r :: r in routes[1..] ==> r.order != routes[0].order;
      InsertAscends(routes[0], SortByOrder(routes[1..]));
    }
  }

  /** What the map and the patterns hold of the hosts so far, for one host name. */
  ghost predicate Agrees(hosts: seq<Host>, hostname: string, names: Names) {
    var exact := RoutesFor(GroupsOf(hosts, names).exact, hostname);
    var chosen := Chosen(GroupsOf(hosts, names).patterns, hostname, names);
    var all := Matching(hosts, hostname, names);
    && IsAscending(exact) && AllBelow(exact, |hosts|)
    && IsAscending(chosen) && AllBelow(chosen, |hosts|)
    && IsAscending(all) && AllBelow(all, |hosts|)
    && (forall r :: r in exact + chosen <==> r in all)
    && (forall r, s :: r in exact && s in chosen ==> r.order != s.order)
  }

  lemma {:induction false} ChosenPush(patterns: seq<PatternRoute>, more: PatternRoute, hostname: string, names: Names)
    ensures Chosen(patterns + [more], hostname, names)
         == Chosen(patterns, hostname, names) + if names.test(more.pattern, hostname) then [more.route] else []
  {
    if patterns == [] {
      assert patterns + [more] == [more];
    } else {
      assert (patterns + [more])[1..] == patterns[1..] + [more];
      ChosenPush(patterns[1..], more, hostname, names);
    }
  }

  /** One more host comes last wherever it goes. */
  lemma OneMoreHost(exact: seq<Route>, chosen: seq<Route>, all: seq<Route>, route: Route)
    requires IsAscending(exact) && AllBelow(exact, route.order) && IsAscending(chosen) && AllBelow(chosen, route.order)
    requires IsAscending(all) && AllBelow(all, route.order)
    ensures IsAscending(exact + [route]) && AllBelow(exact + [route], route.order + 1)
    ensures IsAscending(chosen + [route]) && AllBelow(chosen + [route], route.order + 1)
    ensures IsAscending(all + [route]) && AllBelow(all + [route], route.order + 1)
    ensures AllBelow(exact, route.order + 1) && AllBelow(chosen, route.order + 1) && AllBelow(all, route.order + 1)
  {
    AscendingPush(exact, route);
    AscendingPush(chosen, route);
    AscendingPush(all, route);
  }

  lemma {:induction false} GroupsAgree(hosts: seq<Host>, hostname: string, names: Names)
    ensures Agrees(hosts, hostname, names)
  {
    hide IsAscending, AllBelow, Chosen, MatchesHost;
    if hosts == [] {
      NoHosts(hostname, names);
    } else {
      var last := |hosts| - 1;
      var before, host := hosts[..last], hosts[last];
      var groups, route := GroupsOf(before, names), Route(last, host.handler);
      GroupsAgree(before, hostname, names);
      var exact, chosen := RoutesFor(groups.exact, hostname), Chosen(groups.patterns, hostname, names);
      var all := Matching(before, hostname, names);
      OneMoreHost(exact, chosen, all, route);
      NotYet(exact, chosen, route);
      WhereItGoes(hosts, hostname, names);
      assert exact + [] == exact && chosen + [] == chosen && all + [] == all;
    }
  }

  lemma NotYet(exact: seq<Route>, chosen: seq<Route>, route: Route)
    requires AllBelow(exact, route.order) && AllBelow(chosen, route.order)
    ensures forall r :: r in exact || r in chosen ==> r.order != route.order
  {
  }

  /**
   * A host that matches is added at the end of the map entry or of the chosen patterns, one that does not to neither.
   */
  lemma WhereItGoes(hosts: seq<Host>, hostname: string, names: Names)
    requires hosts != []
    ensures var last := |hosts| - 1;
      var before, route := GroupsOf(hosts[..last], names), Route(last, hosts[last].handler);
      var after := GroupsOf(hosts, names);
      var more := if MatchesHost(hosts[last], hostname, names) then [route] else [];
      && RoutesFor(after.exact, hostname)
        == RoutesFor(before.exact, hostname) + (if HasWildcard(hosts[last].hostname) then [] else more)
      && Chosen(after.patterns, hostname, names)
        == Chosen(before.patterns, hostname, names) + (if HasWildcard(hosts[last].hostname) then more else [])
      && Matching(hosts, hostname, names) == Matching(hosts[..last], hostname, names) + more
  {
    hide Chosen;
    var last := |hosts| - 1;
    var groups := GroupsOf(hosts[..last], names);
    if HasWildcard(hosts[last].hostname) {
      ChosenPush(groups.patterns, PatternRoute(Route(last, hosts[last].handler), hosts[last].hostname), hostname,
        names);
    }
  }

  lemma NoHosts(hostname: string, names: Names)
    ensures Agrees([], hostname, names)
  {
  }

  lemma OrdersOfBoth(exact: seq<Route>, chosen: seq<Route>)
    requires IsAscending(exact) && IsAscending(chosen) && forall r, s :: r in exact && s in chosen ==>
      r.order != s.order
    ensures OrdersDiffer(exact + chosen)
  {
    var all := exact + chosen;
    forall i, j | 0 <= i < j < |all| ensures all[i].order != all[j].order {
      if i < |exact| <= j {
        assert exact[i] in exact && chosen[j - |exact|] in chosen;
      }
    }
  }

  /** The map, the patterns and the sort give exactly the hosts that match, in the order of the configuration. */
  lemma SelectedAreTheMatching(hosts: seq<Host>, hostname: string, names: Names)
    ensures SelectRoutes(hostname, GroupsOf(hosts, names), names) == Matching(hosts, hostname, names)
  {
    hide GroupsOf, Matching, IsAscending, OrdersDiffer;
    var groups := GroupsOf(hosts, names);
    var exact, chosen := RoutesFor(groups.exact, hostname), Chosen(groups.patterns, hostname, names);
    GroupsAgree(hosts, hostname, names);
    OrdersOfBoth(exact, chosen);
    SortAscends(exact + chosen);
    if groups.patterns == [] {
      assert exact + chosen == exact;
    }
    AscendingIsUnique(SelectRoutes(hostname, groups, names), Matching(hosts, hostname, names));
  }

  // ----- running the handlers -----

  /** What a handler gives to `next`: nothing (or anything falsy), the word `route`, or an error. */
  datatype Passed = Nothing | TheRoute | Failure(error: int)

  datatype Outcome = Answers | Passes(what: Passed)

  datatype End = Answered | WentOn | Failed(error: int) | Misdirected

  /** The handlers that were called, and how it ended. */
  datatype Served = Served(called: seq<nat>, end: End)

  /** What a handler does, after the handlers that were called before it. */
  type Behaviour = (nat, seq<nat>) -> Outcome

  /** `runRoutes`, from the index on. */
  function RunRoutes(handlers: seq<nat>, index: nat, called: seq<nat>, does: Behaviour): Served
    requires index <= |handlers|
    decreases |handlers| - index
  {
    if index == |handlers| then Served(called, WentOn)
    else
      var now := called + [handlers[index]];
      match does(handlers[index], called)
      case Answers => Served(now, Answered)
      case Passes(Failure(error)) => Served(now, Failed(error))
      case Passes(_) => RunRoutes(handlers, index + 1, now, does)
  }

  function HandlersOf(routes: seq<Route>): (handlers: seq<nat>)
    ensures |handlers| == |routes|
  {
    seq(|routes|, i requires 0 <= i < |routes| => routes[i].handler)
  }

  /** The router, for the `Host` header of a request. */
  function Router(hosts: seq<Host>, fallback: Option<nat>, host: Option<string>, does: Behaviour, names: Names): Served
  {
    var hostname := GetHostname(host, names);
    var matches :=
      if hostname.Some? && hostname.value != "" then SelectRoutes(hostname.value, GroupsOf(hosts, names), names)
      else [];
    var last := if fallback.Some? then [fallback.value] else [];
    if matches == [] && last == [] then Served([], Misdirected)
    else RunRoutes(HandlersOf(matches) + last, 0, [], does)
  }

  // ----- one middleware per host -----

  /** A host takes a request with a usable name that it matches. */
  predicate Takes(host: Host, hostname: Option<string>, names: Names) {
    hostname.Some? && hostname.value != "" && MatchesHost(host, hostname.value, names)
  }

  /** A handler behind the others: what it does when the request gets to it. */
  function Then(before: Served, handler: nat, does: Behaviour): Served {
    if !before.end.WentOn? then before
    else
      var now := before.called + [handler];
      match does(handler, before.called)
      case Answers => Served(now, Answered)
      case Passes(Failure(error)) => Served(now, Failed(error))
      case Passes(_) => Served(now, WentOn)
  }

  /** The hosts one after the other: one that does not take the request passes it on. */
  function HostChain(hosts: seq<Host>, hostname: Option<string>, does: Behaviour, names: Names): Served {
    if hosts == [] then Served([], WentOn)
    else
      var before := HostChain(hosts[..|hosts| - 1], hostname, does, names);
      if Takes(hosts[|hosts| - 1], hostname, names) then Then(before, hosts[|hosts| - 1].handler, does) else before
  }

  function WithFallback(before: Served, fallback: Option<nat>, does: Behaviour): Served {
    if fallback.None? then before else Then(before, fallback.value, does)
  }

  lemma {:induction false} RunOneMore(handlers: seq<nat>, handler: nat, index: nat, called: seq<nat>, does: Behaviour)
    requires index <= |handlers|
    ensures RunRoutes(handlers + [handler], index, called, does)
      == Then(RunRoutes(handlers, index, called, does), handler, does)
    decreases |handlers| - index
  {
    if index < |handlers| {
      RunOneMore(handlers, handler, index + 1, called + [handlers[index]], does);
    }
  }

  lemma {:induction false} ChainIsTheRun(hosts: seq<Host>, hostname: string, does: Behaviour, names: Names)
    requires hostname != ""
    ensures HostChain(hosts, Some(hostname), does, names)
      == RunRoutes(HandlersOf(Matching(hosts, hostname, names)), 0, [], does)
  {
    hide RunRoutes, MatchesHost, Then;
    if hosts == [] {
      RunNone(does);
    } else {
      var before, host := hosts[..|hosts| - 1], hosts[|hosts| - 1];
      ChainIsTheRun(before, hostname, does, names);
      if MatchesHost(host, hostname, names) {
        assert HandlersOf(Matching(hosts, hostname, names))
          == HandlersOf(Matching(before, hostname, names)) + [host.handler];
        RunOneMore(HandlersOf(Matching(before, hostname, names)), host.handler, 0, [], does);
      } else {
        assert Matching(hosts, hostname, names) == Matching(before, hostname, names);
      }
    }
  }

  lemma RunNone(does: Behaviour)
    ensures RunRoutes([], 0, [], does) == Served([], WentOn)
  {
  }

  lemma {:induction false} NoneTakes(hosts: seq<Host>, hostname: Option<string>, does: Behaviour, names: Names)
    requires hostname.None? || hostname.value == ""
    ensures HostChain(hosts, hostname, does, names) == Served([], WentOn)
  {
    if hosts != [] {
      NoneTakes(hosts[..|hosts| - 1], hostname, does, names);
    }
  }

  predicate AnyMatches(hosts: seq<Host>, hostname: string, names: Names) {
    exists i :: 0 <= i < |hosts| && MatchesHost(hosts[i], hostname, names)
  }

  lemma AnyOneMore(hosts: seq<Host>, hostname: string, names: Names)
    requires hosts != []
    ensures AnyMatches(hosts, hostname, names)
      <==> AnyMatches(hosts[..|hosts| - 1], hostname, names) || MatchesHost(hosts[|hosts| - 1], hostname, names)
  {
    hide MatchesHost;
    assert forall i :: 0 <= i < |hosts| - 1 ==> hosts[..|hosts| - 1][i] == hosts[i];
  }

  lemma {:induction false} MatchingMeaning(hosts: seq<Host>, hostname: string, names: Names)
    ensures Matching(hosts, hostname, names) != [] <==> AnyMatches(hosts, hostname, names)
  {
    hide MatchesHost;
    if hosts != [] {
      MatchingMeaning(hosts[..|hosts| - 1], hostname, names);
      AnyOneMore(hosts, hostname, names);
    }
  }

  /**
   * The router does what one middleware per host and the fallback behind them would do, for every configuration, header
   * and behaviour of the handlers. Misdirected are exactly the requests without a host that takes them, when there is
   * no fallback.
   */
  lemma RouterIsTheChain(hosts: seq<Host>, fallback: Option<nat>, host: Option<string>, does: Behaviour, names: Names)
    ensures var hostname := GetHostname(host, names);
      var taken := exists i :: 0 <= i < |hosts| && Takes(hosts[i], hostname, names);
      Router(hosts, fallback, host, does, names)
      == if !taken && fallback.None? then Served([], Misdirected)
         else WithFallback(HostChain(hosts, hostname, does, names), fallback, does)
  {
    hide GetHostname, GroupsOf, SelectRoutes, RunRoutes, HostChain, Then, MatchesHost, Matching;
    var hostname := GetHostname(host, names);
    var matches: seq<Route> := [];
    if hostname.Some? && hostname.value != "" {
      matches := Matching(hosts, hostname.value, names);
      SelectedAreTheMatching(hosts, hostname.value, names);
      MatchingMeaning(hosts, hostname.value, names);
      ChainIsTheRun(hosts, hostname.value, does, names);
    } else {
      NoneTakes(hosts, hostname, does, names);
      RunNone(does);
    }
    assert HostChain(hosts, hostname, does, names) == RunRoutes(HandlersOf(matches), 0, [], does);
    if fallback.Some? {
      RunOneMore(HandlersOf(matches), fallback.value, 0, [], does);
    } else {
      assert HandlersOf(matches) + [] == HandlersOf(matches);
    }
  }

  /** How a request ends when the handlers up to the last one called have passed it on. */
  function EndOf(outcome: Outcome): End {
    match outcome
    case Answers => Answered
    case Passes(Failure(error)) => Failed(error)
    case Passes(_) => WentOn
  }

  predicate PassesOn(handlers: seq<nat>, i: nat, does: Behaviour)
    requires i < |handlers|
  {
    EndOf(does(handlers[i], handlers[..i])).WentOn?
  }

  /**
   * The handlers are called in their order, up to and with the first that answers or fails, which decides how it ends.
   */
  lemma {:induction false} CalledUpToTheEnd(handlers: seq<nat>, index: nat, does: Behaviour)
    requires index <= |handlers| && forall i :: 0 <= i < index ==> PassesOn(handlers, i, does)
    ensures var served := RunRoutes(handlers, index, handlers[..index], does);
      && |served.called| <= |handlers| && served.called == handlers[..|served.called|]
      && (forall i :: 0 <= i < |served.called| - 1 ==> PassesOn(handlers, i, does))
      && (served.end.WentOn? ==> served.called == handlers && forall i :: 0 <= i < |handlers| ==>
          PassesOn(handlers, i, does))
      && (!served.end.WentOn? ==>
          served.called != []
          && served.end == EndOf(does(handlers[|served.called| - 1], handlers[..|served.called| - 1])))
    decreases |handlers| - index
  {
    if index == |handlers| {
      assert handlers[..index] == handlers;
    } else {
      assert handlers[..index] + [handlers[index]] == handlers[..index + 1];
      if PassesOn(handlers, index, does) {
        CalledUpToTheEnd(handlers, index + 1, does);
      }
    }
  }
}
