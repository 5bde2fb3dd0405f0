/**
 * getControllers and addControllerIfNotExists of the Docs command: walk the
 * router's route groups, and collect each controller class once (first
 * occurrence wins) into an insertion-ordered collection keyed by class
 * name, storing its "Docs" interface instead of the controller when it has
 * one, and keeping only classes whose second-to-last namespace segment is
 * the requested type name.
 *
 * Reflection is replaced by data: a controller carries its class name and
 * the names of the interfaces it implements, in reflection order.
 */
module Collector {
  import opened Wrappers
  import opened Php

  /** A controller instance: its fully-qualified class name and its interface names. */
  datatype Controller = Controller(className: string, interfaces: seq<string>)

  /** A route; getControllerInstance() may give no controller. */
  datatype Route = Route(controllerInstance: Option<Controller>)

  /** What is stored for a class: the controller itself or the reflected "Docs" interface. */
  datatype Source = Concrete(controller: Controller) | DocsInterface(name: string)

  /** One collection entry: class name to documentation source. */
  type Entry = (string, Source)

  /** The namespace separator of PHP class names. */
  const NAMESPACE_SEPARATOR: char := '\\'

  /** The suffix that marks a documentation interface. */
  const DOCS_SUFFIX := "Docs"

  // ---------------------------------------------------------------------
  // Insertion-ordered keyed collection

  /** The keys of the entries, in order. */
  function Keys(items: seq<Entry>): (ks: seq<string>)
    ensures |ks| == |items|
    ensures forall i :: 0 <= i < |items| ==> ks[i] == items[i].0
  {
    seq(|items|, i requires 0 <= i < |items| => items[i].0)
  }

  /** No key occurs twice: what a PHP array guarantees of its keys. */
  ghost predicate UniqueKeys(items: seq<Entry>) {
    forall i, j :: 0 <= i < j < |items| ==> items[i].0 != items[j].0
  }

  /**
   * `$items[$key] = $value`: an existing key keeps its position and gets the
   * new value; a new key is appended.
   */
  function Assign(items: seq<Entry>, key: string, value: Source): (r: seq<Entry>)
    ensures Keys(r) == if key in Keys(items) then Keys(items) else Keys(items) + [key]
    ensures forall i :: 0 <= i < |r| && r[i].0 == key ==> r[i].1 == value
    ensures forall i :: 0 <= i < |items| && items[i].0 != key ==> r[i] == items[i]
    ensures UniqueKeys(items) ==> UniqueKeys(r)
  {
    if key in Keys(items) then
      seq(|items|, i requires 0 <= i < |items| => if items[i].0 == key then (key, value) else items[i])
    else
      items + [(key, value)]
  }

  /** Laravel's Collection, reduced to the has/put the command uses. */
  class Collection {
    var items: seq<Entry>

    ghost predicate Valid()
      reads this
    {
      UniqueKeys(items)
    }

    constructor ()
      ensures Valid() && items == []
    {
      items := [];
    }

    /** has($key) */
    function Has(key: string): (b: bool)
      reads this
      ensures b <==> exists i :: 0 <= i < |items| && items[i].0 == key
    {
      key in Keys(items)
    }

    /** put($key, $value) */
    method Put(key: string, value: Source)
      requires Valid()
      modifies this
      ensures Valid()
      ensures items == Assign(old(items), key, value)
    {
      items := Assign(items, key, value);
    }
  }

  // ---------------------------------------------------------------------
  // Choosing the documentation source and filtering by type

  /** Arr::first over the interfaces: the first name that ends with "Docs". */
  function FirstDocsInterface(interfaces: seq<string>): (r: Option<string>)
    ensures r.None? <==> forall i :: 0 <= i < |interfaces| ==> !EndsWith(interfaces[i], DOCS_SUFFIX)
    ensures r.Some? ==> r.value in interfaces && EndsWith(r.value, DOCS_SUFFIX)
  {
    if interfaces == [] then None
    else if EndsWith(interfaces[0], DOCS_SUFFIX) then Some(interfaces[0])
    else FirstDocsInterface(interfaces[1..])
  }

  /** The interface chosen is the first one with the suffix: every earlier one lacks it. */
  lemma {:induction false} FirstDocsInterfaceIsFirst(interfaces: seq<string>, k: nat)
    requires k < |interfaces| && EndsWith(interfaces[k], DOCS_SUFFIX)
    requires forall j :: 0 <= j < k ==> !EndsWith(interfaces[j], DOCS_SUFFIX)
    ensures FirstDocsInterface(interfaces) == Some(interfaces[k])
  {
    if k > 0 {
      assert !EndsWith(interfaces[0], DOCS_SUFFIX);
      assert forall j :: 0 <= j < k - 1 ==> interfaces[1..][j] == interfaces[j + 1];
      FirstDocsInterfaceIsFirst(interfaces[1..], k - 1);
    }
  }

  /** The value stored for a controller: its "Docs" interface if it has one, else itself. */
  function SourceOf(c: Controller): (s: Source)
    ensures s.Concrete? <==> forall i :: 0 <= i < |c.interfaces| ==> !EndsWith(c.interfaces[i], DOCS_SUFFIX)
    ensures s.Concrete? ==> s.controller == c
    ensures s.DocsInterface? ==> s.name in c.interfaces && EndsWith(s.name, DOCS_SUFFIX)
  {
    match FirstDocsInterface(c.interfaces)
    case Some(i) => DocsInterface(i)
    case None => Concrete(c)
  }

  /**
   * `$arr[count($arr)-2]` for `$arr = explode('\\', $class)`: the namespace
   * segment just before the short class name, or null when the class name
   * has a single segment (index -1; the notice PHP raises there is not modelled).
   */
  function OwningSegment(className: string): (seg: Option<string>)
    ensures seg.Some? <==> |Explode(NAMESPACE_SEPARATOR, className)| >= 2
    ensures seg.Some? ==>
      var arr := Explode(NAMESPACE_SEPARATOR, className);
      seg.value == arr[|arr| - 2]
  {
    var arr := Explode(NAMESPACE_SEPARATOR, className);
    ElementAt(arr, |arr| - 2)
  }

  /**
   * The filter of addControllerIfNotExists as written:
   * `strtolower($arr[count($arr)-2] === $type)` lower-cases the BOOLEAN
   * result of the strict comparison, giving "1" or "", and the `if` tests
   * that string's truthiness.
   */
  predicate Matches(className: string, typeName: string)
    ensures Matches(className, typeName) <==> OwningSegment(className) == Some(typeName)
  {
    Truthy(StrToLower(BoolToString(OwningSegment(className) == Some(typeName))))
  }

  /** A class name without a namespace has no owning segment and is never kept. */
  lemma UnqualifiedNeverMatches(className: string, typeName: string)
    requires NAMESPACE_SEPARATOR !in className
    ensures OwningSegment(className) == None
    ensures !Matches(className, typeName)
  {
    ExplodeWithoutSeparator(NAMESPACE_SEPARATOR, className);
  }

  /** A class name built from namespace segments is owned by its second-to-last segment. */
  lemma MatchesQualifiedName(segments: seq<string>, typeName: string)
    requires |segments| >= 2
    requires forall i :: 0 <= i < |segments| ==> NAMESPACE_SEPARATOR !in segments[i]
    ensures OwningSegment(Implode(NAMESPACE_SEPARATOR, segments)) == Some(segments[|segments| - 2])
    ensures Matches(Implode(NAMESPACE_SEPARATOR, segments), typeName) <==> segments[|segments| - 2] == typeName
  {
    ExplodeImplode(NAMESPACE_SEPARATOR, segments);
    OwningSegmentOfPieces(Implode(NAMESPACE_SEPARATOR, segments), segments);
  }

  /** A class name whose explode pieces are known is owned by the second-to-last piece. */
  lemma OwningSegmentOfPieces(className: string, pieces: seq<string>)
    requires Explode(NAMESPACE_SEPARATOR, className) == pieces && |pieces| >= 2
    ensures OwningSegment(className) == Some(pieces[|pieces| - 2])
  {
  }

  /**
   * The comparison does not fold case: App\Http\Controllers\Business\OrderController
   * is not of the type "business", while App\Http\Controllers\business\OrderController is.
   */
  lemma CapitalisedSegmentNotMatched()
    ensures !Matches(Implode(NAMESPACE_SEPARATOR, ["App", "Http", "Controllers", "Business", "OrderController"]), "business")
    ensures Matches(Implode(NAMESPACE_SEPARATOR, ["App", "Http", "Controllers", "business", "OrderController"]), "business")
  {
    var upper := ["App", "Http", "Controllers", "Business", "OrderController"];
    var lower := ["App", "Http", "Controllers", "business", "OrderController"];
    assert upper[3][0] != "business"[0];
    MatchesQualifiedName(upper, "business");
    MatchesQualifiedName(lower, "business");
  }

  // ---------------------------------------------------------------------
  // Specification of one step and of the whole walk

  /** The collection after addControllerIfNotExists(items, c, typeName). */
  function AddIfAbsent(items: seq<Entry>, c: Controller, typeName: string): (r: seq<Entry>)
    ensures c.className in Keys(items) ==> r == items
    ensures |items| <= |r| <= |items| + 1 && r[..|items|] == items
    ensures |r| == |items| + 1 <==> c.className !in Keys(items) && Matches(c.className, typeName)
    ensures |r| == |items| + 1 ==> r[|items|] == (c.className, SourceOf(c))
    ensures UniqueKeys(items) ==> UniqueKeys(r)
  {
    if c.className in Keys(items) then items
    else if Matches(c.className, typeName) then items + [(c.className, SourceOf(c))]
    else items
  }

  /** The routes of all groups, group after group. */
  function Flatten(groups: seq<seq<Route>>): (routes: seq<Route>)
  {
    if groups == [] then [] else Flatten(groups[..|groups| - 1]) + groups[|groups| - 1]
  }

  /** The collection built by adding the controller of every route, in order, to an empty one. */
  function Collected(routes: seq<Route>, typeName: string): (r: seq<Entry>)
  {
    if routes == [] then []
    else
      var prev := Collected(routes[..|routes| - 1], typeName);
      match routes[|routes| - 1].controllerInstance
      case None => prev
      case Some(c) => AddIfAbsent(prev, c, typeName)
  }

  /** The class names of the controllers of the routes, in route order (routes without one skipped). */
  function ClassesOf(routes: seq<Route>): (classes: seq<string>)
  {
    if routes == [] then []
    else
      ClassesOf(routes[..|routes| - 1]) +
        match routes[|routes| - 1].controllerInstance
        case None => []
        case Some(c) => [c.className]
  }

  /**
   * An independent description of the result: walk the routes in order and
   * keep a route's controller exactly when no earlier route had a controller
   * of the same class and the class matches the type.
   */
  function Kept(routes: seq<Route>, typeName: string): (r: seq<Entry>)
  {
    if routes == [] then []
    else
      var init := routes[..|routes| - 1];
      Kept(init, typeName) +
        match routes[|routes| - 1].controllerInstance
        case None => []
        case Some(c) =>
          if c.className !in ClassesOf(init) && Matches(c.className, typeName)
          then [(c.className, SourceOf(c))] else []
  }

  /** A class is a key of the result exactly when some route has a controller of it and it matches. */
  lemma {:induction false} CollectedKeys(routes: seq<Route>, typeName: string, k: string)
    ensures k in Keys(Collected(routes, typeName)) <==> k in ClassesOf(routes) && Matches(k, typeName)
  {
    if routes != [] {
      var init := routes[..|routes| - 1];
      CollectedKeys(init, typeName, k);
      var prev := Collected(init, typeName);
      match routes[|routes| - 1].controllerInstance
      case None =>
        assert ClassesOf(routes) == ClassesOf(init);
      case Some(c) =>
        assert ClassesOf(routes) == ClassesOf(init) + [c.className];
        var r := AddIfAbsent(prev, c, typeName);
        if |r| == |prev| + 1 {
          assert r == prev + [(c.className, SourceOf(c))];
          assert Keys(r) == Keys(prev) + [c.className];
        } else {
          assert r == prev;
        }
    }
  }

  /** The collection built step by step is the reference filter: first occurrences of matching classes, in route order. */
  lemma {:induction false} CollectedIsKept(routes: seq<Route>, typeName: string)
    ensures Collected(routes, typeName) == Kept(routes, typeName)
  {
    if routes != [] {
      var init := routes[..|routes| - 1];
      CollectedIsKept(init, typeName);
      match routes[|routes| - 1].controllerInstance
      case None =>
      case Some(c) =>
        CollectedKeys(init, typeName, c.className);
    }
  }

  /** The result never holds a class twice. */
  lemma {:induction false} CollectedUniqueKeys(routes: seq<Route>, typeName: string)
    ensures UniqueKeys(Collected(routes, typeName))
  {
    if routes != [] {
      CollectedUniqueKeys(routes[..|routes| - 1], typeName);
    }
  }

  /** Every entry of the result is keyed by a class that matches the type and stores that class's source. */
  lemma {:induction false} CollectedEntriesMatch(routes: seq<Route>, typeName: string)
    ensures forall p :: 0 <= p < |Collected(routes, typeName)| ==>
      var e := Collected(routes, typeName)[p];
      Matches(e.0, typeName) && e.0 in ClassesOf(routes)
  {
    forall p | 0 <= p < |Collected(routes, typeName)|
      ensures Matches(Collected(routes, typeName)[p].0, typeName)
      ensures Collected(routes, typeName)[p].0 in ClassesOf(routes)
    {
      var k := Collected(routes, typeName)[p].0;
      assert Keys(Collected(routes, typeName))[p] == k;
      CollectedKeys(routes, typeName, k);
    }
  }

  /** The reference filter only grows when routes are appended. */
  lemma {:induction false} KeptPrefix(routes: seq<Route>, n: nat, typeName: string)
    requires n <= |routes|
    ensures |Kept(routes[..n], typeName)| <= |Kept(routes, typeName)|
    ensures Kept(routes[..n], typeName) == Kept(routes, typeName)[..|Kept(routes[..n], typeName)|]
  {
    if n < |routes| {
      var init := routes[..|routes| - 1];
      assert init[..n] == routes[..n];
      KeptPrefix(init, n, typeName);
    } else {
      assert routes[..n] == routes;
    }
  }

  /**
   * First occurrence wins: the controller of the first route with a given
   * matching class is the one whose source is stored under that class.
   */
  lemma FirstOccurrenceWins(routes: seq<Route>, i: nat, typeName: string)
    requires i < |routes| && routes[i].controllerInstance.Some?
    requires routes[i].controllerInstance.value.className !in ClassesOf(routes[..i])
    requires Matches(routes[i].controllerInstance.value.className, typeName)
    ensures var c := routes[i].controllerInstance.value;
      (c.className, SourceOf(c)) in Collected(routes, typeName)
  {
    var c := routes[i].controllerInstance.value;
    assert routes[..i + 1][..i] == routes[..i];
    KeptPrefix(routes, i + 1, typeName);
    CollectedIsKept(routes, typeName);
    var k := Kept(routes[..i + 1], typeName);
    assert k[|k| - 1] == (c.className, SourceOf(c));
    assert Kept(routes, typeName)[|k| - 1] == k[|k| - 1];
  }

  /** Walking one more route applies addControllerIfNotExists for its controller, if any. */
  lemma CollectedSnoc(routes: seq<Route>, route: Route, typeName: string)
    ensures route.controllerInstance.None? ==> Collected(routes + [route], typeName) == Collected(routes, typeName)
    ensures route.controllerInstance.Some? ==>
      Collected(routes + [route], typeName) == AddIfAbsent(Collected(routes, typeName), route.controllerInstance.value, typeName)
  {
  }

  /** Flattening one more group appends its routes. */
  lemma FlattenSnoc(groups: seq<seq<Route>>, i: nat)
    requires i < |groups|
    ensures Flatten(groups[..i + 1]) == Flatten(groups[..i]) + groups[i]
  {
    assert groups[..i + 1][..i] == groups[..i];
  }

  /** Taking every element of a sequence gives the sequence. */
  lemma TakeAll<T>(s: seq<T>)
    ensures s[..|s|] == s
  {
  }

  /** The walk extended by one route of the current group. */
  lemma WalkSnoc(prefix: seq<Route>, group: seq<Route>, j: nat)
    requires j < |group|
    ensures prefix + group[..j + 1] == (prefix + group[..j]) + [group[j]]
  {
  }

  // ---------------------------------------------------------------------
  // The command's methods

  /**
   * addControllerIfNotExists: a class already in the collection is left
   * alone; otherwise its source is put under the class name when the class's
   * second-to-last namespace segment passes the type test.
   */
  method AddControllerIfNotExists(controllers: Collection, controller: Controller, typeName: string)
    requires controllers.Valid()
    modifies controllers
    ensures controllers.Valid()
    ensures controllers.items == AddIfAbsent(old(controllers.items), controller, typeName)
  {
    var className := controller.className;
    if controllers.Has(className) {
      return;
    }
    var interface := FirstDocsInterface(controller.interfaces);
    var source := Concrete(controller);
    if interface.Some? {
      source := DocsInterface(interface.value);
    }
    var arr := Explode(NAMESPACE_SEPARATOR, className);
    if Truthy(StrToLower(BoolToString(ElementAt(arr, |arr| - 2) == Some(typeName)))) {
      controllers.Put(className, source);
    }
  }

  /**
   * getControllers: a fresh collection filled by walking every route of
   * every group and adding the controller of each route that has one.
   */
  method GetControllers(routeGroups: seq<seq<Route>>, typeName: string) returns (controllers: Collection)
    ensures fresh(controllers) && controllers.Valid()
    ensures controllers.items == Collected(Flatten(routeGroups), typeName)
  {
    controllers := new Collection();
    var i := 0;
    while i < |routeGroups|
      invariant 0 <= i <= |routeGroups|
      invariant fresh(controllers)
      invariant controllers.items == Collected(Flatten(routeGroups[..i]), typeName)
    {
      var group := routeGroups[i];
      var j := 0;
      ghost var walked := Flatten(routeGroups[..i]);
      while j < |group|
        invariant 0 <= j <= |group|
        invariant fresh(controllers)
        invariant walked == Flatten(routeGroups[..i]) + group[..j]
        invariant controllers.items == Collected(walked, typeName)
      {
        var route := group[j];
        CollectedSnoc(walked, route, typeName);
        CollectedUniqueKeys(walked, typeName);
        if route.controllerInstance.Some? {
          AddControllerIfNotExists(controllers, route.controllerInstance.value, typeName);
        }
        WalkSnoc(Flatten(routeGroups[..i]), group, j);
        walked := walked + [route];
        j := j + 1;
      }
      TakeAll(group);
      FlattenSnoc(routeGroups, i);
      i := i + 1;
    }
    TakeAll(routeGroups);
    CollectedUniqueKeys(Flatten(routeGroups), typeName);
  }
}
