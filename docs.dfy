/**
 * How handle() wires the pieces together: the controllers are collected
 * for `MAPPING[getType()]`, so every collected class sits in a namespace
 * segment spelled exactly as the lower-case module name of the requested type.
 */
module Docs {
  import opened Wrappers
  import opened DocTypes
  import opened Collector

  /** Every controller collected for an accepted --type lives in that type's lower-case namespace segment. */
  lemma ControllersOfRequestedType(routeGroups: seq<seq<Route>>, typeOption: Option<int>)
    requires GetType(typeOption).Success?
    ensures var name := MAPPING[GetType(typeOption).value];
      var entries := Collected(Flatten(routeGroups), name);
      IsLowerName(name) &&
      forall p :: 0 <= p < |entries| ==> OwningSegment(entries[p].0) == Some(name)
  {
    var name := MAPPING[GetType(typeOption).value];
    CollectedEntriesMatch(Flatten(routeGroups), name);
    MappingLowerCase();
  }
}
