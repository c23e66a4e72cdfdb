/** The filters panel: a local copy of the search filters that the user
    edits (location, distance, and the insurance, age-group and service
    lists), then hands to the page on Apply, or resets on Clear. */
module Filters {
  import opened Wrappers
  import Text
  import Lists

  /** `FilterOptions`: every field is optional. */
  datatype FilterOptions = FilterOptions(
    location: Option<string>,
    distance: Option<int>,
    insurances: Option<seq<string>>,
    ageGroups: Option<seq<string>>,
    services: Option<seq<string>>)

  const Cleared := FilterOptions(None, None, None, None, None)

  /** A call the panel makes to its parent. */
  datatype Event = FiltersChanged(filters: FilterOptions) | Closed

  /** `parseInt(distance) || undefined`: the number read from the input,
      with no distance for input that holds no number or reads as 0. */
  function Distance(input: string): (d: Option<int>)
    ensures d.Some? ==> d.value != 0 && Text.ParseInt(input) == d
    ensures d.None? <==> Text.ParseInt(input).None? || Text.ParseInt(input) == Some(0)
  {
    var n := Text.ParseInt(input);
    if n.None? || n.value == 0 then None else n
  }

  /** Typing a number gives that distance back; clearing the field gives
      none. */
  lemma DistanceOfNumber(n: int)
    requires n != 0
    ensures Distance(Text.IntToString(n)) == Some(n)
    ensures Distance("").None?
  {
    Text.ParseIntOfIntToString(n);
  }

  /** The list edited by a toggle, a missing list counting as empty. */
  function Toggled(list: Option<seq<string>>, x: string): (r: seq<string>)
    ensures x in r <==> list.None? || x !in list.value
    ensures forall y :: y != x ==> (y in r <==> list.Some? && y in list.value)
  {
    Lists.Toggle(list.GetOr([]), x)
  }

  /** Toggling an absent value twice restores a list that was given; a
      missing list comes back as an empty one. */
  lemma ToggledTwice(list: Option<seq<string>>, x: string)
    requires list.None? || x !in list.value
    ensures Toggled(Some(Toggled(list, x)), x) == list.GetOr([])
  {
    Lists.ToggleTwiceAbsent(list.GetOr([]), x);
  }

  /** The panel's state and the calls it has made to its parent. */
  class FiltersPanel {
    var localFilters: FilterOptions
    var events: seq<Event>

    constructor (filters: FilterOptions)
      ensures localFilters == filters && events == []
    {
      localFilters := filters;
      events := [];
    }

    method HandleLocationChange(location: string)
      modifies this
      ensures localFilters == old(localFilters).(location := Some(location))
      ensures events == old(events)
    {
      localFilters := localFilters.(location := Some(location));
    }

    method HandleDistanceChange(input: string)
      modifies this
      ensures localFilters == old(localFilters).(distance := Distance(input))
      ensures events == old(events)
    {
      localFilters := localFilters.(distance := Distance(input));
    }

    /** Each toggle edits its own list and nothing else. */
    method ToggleInsurance(insurance: string)
      modifies this
      ensures localFilters == old(localFilters).(insurances := Some(Toggled(old(localFilters).insurances, insurance)))
      ensures events == old(events)
    {
      localFilters := localFilters.(insurances := Some(Toggled(localFilters.insurances, insurance)));
    }

    method ToggleAgeGroup(ageGroup: string)
      modifies this
      ensures localFilters == old(localFilters).(ageGroups := Some(Toggled(old(localFilters).ageGroups, ageGroup)))
      ensures events == old(events)
    {
      localFilters := localFilters.(ageGroups := Some(Toggled(localFilters.ageGroups, ageGroup)));
    }

    method ToggleService(service: string)
      modifies this
      ensures localFilters == old(localFilters).(services := Some(Toggled(old(localFilters).services, service)))
      ensures events == old(events)
    {
      localFilters := localFilters.(services := Some(Toggled(localFilters.services, service)));
    }

    /** Apply reports the local filters, then closes the panel. */
    method HandleApply()
      modifies this
      ensures localFilters == old(localFilters)
      ensures events == old(events) + [FiltersChanged(localFilters), Closed]
    {
      events := events + [FiltersChanged(localFilters)];
      events := events + [Closed];
    }

    /** Clear empties the local filters and reports the empty filters; the
        panel stays open. */
    method HandleClear()
      modifies this
      ensures localFilters == Cleared
      ensures events == old(events) + [FiltersChanged(Cleared)]
    {
      localFilters := Cleared;
      events := events + [FiltersChanged(Cleared)];
    }
  }
}
