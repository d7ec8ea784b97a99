/** src/components/DateFilter.tsx: the four preset buttons and the two custom-date inputs,
    each of which hands a new filter record to `onChange`. */
module DateFilter {
  import opened Js
  import opened Types

  /** The preset buttons, in display order, with their labels. */
  function PresetOptions(): (r: seq<(Selector, string)>)
    ensures |r| == 4
    ensures forall j, k :: 0 <= j < k < |r| ==> r[j].0 != r[k].0
  {
    [(Daily, "Today"), (Weekly, "This Week"), (Monthly, "This Month"), (Custom, "Custom")]
  }

  /** A selector some button produces. */
  predicate Selectable(s: Selector)
  {
    exists k :: 0 <= k < |PresetOptions()| && PresetOptions()[k].0 == s
  }

  /** The buttons offer exactly the four named selectors; the fall-through one is not among them. */
  lemma SelectableSelectors(s: Selector)
    ensures Selectable(s) <==> s != Unlisted
  {
    var opts := PresetOptions();
    match s
    case Daily => assert opts[0].0 == s;
    case Weekly => assert opts[1].0 == s;
    case Monthly => assert opts[2].0 == s;
    case Custom => assert opts[3].0 == s;
    case Unlisted =>
  }

  /** A user action on the component. */
  datatype Event =
    | Press(option: nat)         // the preset button at this position
    | EditStart(value: string)   // the start-date input's new value
    | EditEnd(value: string)     // the end-date input's new value

  /** The record handed to `onChange` for one event; a press outside the buttons does nothing. */
  function Update(f: DateRangeFilter, e: Event): (r: DateRangeFilter)
    ensures e.Press? && e.option < |PresetOptions()| ==>
      r.selector == PresetOptions()[e.option].0 && r.startDate == f.startDate && r.endDate == f.endDate
    ensures e.EditStart? ==> r.startDate == Some(e.value) && r.selector == f.selector && r.endDate == f.endDate
    ensures e.EditEnd? ==> r.endDate == Some(e.value) && r.selector == f.selector && r.startDate == f.startDate
  {
    match e
    case Press(k) => if k < |PresetOptions()| then f.(selector := PresetOptions()[k].0) else f
    case EditStart(v) => f.(startDate := Some(v))
    case EditEnd(v) => f.(endDate := Some(v))
  }

  /** The text a date input shows: `filter.startDate || ''`. */
  function Shown(o: Option<string>): (r: string)
    ensures OptTruthy(o) ==> r == o.value
    ensures !OptTruthy(o) ==> r == ""
  {
    if o.Some? then o.value else ""
  }

  function ApplyAll(f: DateRangeFilter, es: seq<Event>): DateRangeFilter
    decreases |es|
  {
    if |es| == 0 then f else ApplyAll(Update(f, es[0]), es[1..])
  }

  /** Starting from a selectable filter, no sequence of actions reaches the fall-through selector. */
  lemma {:induction false} StaysSelectable(f: DateRangeFilter, es: seq<Event>)
    requires Selectable(f.selector)
    ensures Selectable(ApplyAll(f, es).selector)
    decreases |es|
  {
    if |es| > 0 {
      var g := Update(f, es[0]);
      if es[0].Press? && es[0].option < |PresetOptions()| {
        SelectableSelectors(g.selector);
      }
      StaysSelectable(g, es[1..]);
    }
  }

  /** Switching presets never loses the custom dates: after any presses, the dates are the
      ones last typed. */
  lemma {:induction false} PressesKeepDates(f: DateRangeFilter, es: seq<Event>)
    requires forall k :: 0 <= k < |es| ==> es[k].Press?
    ensures ApplyAll(f, es).startDate == f.startDate && ApplyAll(f, es).endDate == f.endDate
    decreases |es|
  {
    if |es| > 0 {
      PressesKeepDates(Update(f, es[0]), es[1..]);
    }
  }

  /** Editing the two dates commutes. */
  lemma EditsCommute(f: DateRangeFilter, a: string, b: string)
    ensures Update(Update(f, EditStart(a)), EditEnd(b)) == Update(Update(f, EditEnd(b)), EditStart(a))
  {
  }
}
