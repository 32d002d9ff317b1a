/** The first funnel step ("Getting Started"): two selections, last month's revenue and ad
    spend, decide whether the NEXT button is live and where it leads. */
module Hire {
  import opened Common
  import Button
  import Routes

  /** The two `<select>` values; `""` is the placeholder. */
  datatype State = State(range: string, innerValue: string)

  const Initial := State("", "")

  const RevenueOptions: seq<string> := ["unValid", "valid-1", "valid-2"]
  const AdSpendOptions: seq<string> := ["valid-1", "valid-2", "valid-3"]

  /** A change event of one of the two selects. The placeholder option is disabled and
      hidden, so an event only ever carries one of the listed options. */
  datatype Event = PickRange(value: string) | PickInnerValue(value: string)

  predicate Selectable(e: Event)
  {
    match e
    case PickRange(v) => v in RevenueOptions
    case PickInnerValue(v) => v in AdSpendOptions
  }

  /** `onChange` of one select: its own answer becomes the chosen value, the other answer
      stays as it was. */
  function Apply(s: State, e: Event): (r: State)
    ensures e.PickRange? ==> r.range == e.value && r.innerValue == s.innerValue
    ensures e.PickInnerValue? ==> r.innerValue == e.value && r.range == s.range
  {
    match e
    case PickRange(v) => s.(range := v)
    case PickInnerValue(v) => s.(innerValue := v)
  }

  /** The state after a sequence of change events on a freshly mounted page. */
  function Run(events: seq<Event>): State
  {
    if events == [] then Initial else Apply(Run(events[..|events| - 1]), events[|events| - 1])
  }

  /** `nextLink`: only a revenue below 200K leads to the not-qualified page. */
  function NextLink(s: State): (link: string)
    ensures link == "/disqualified" <==> s.range == "unValid"
    ensures link == "/disqualified" || link == "/discovery-call"
  {
    if s.range == "unValid" then "/disqualified" else "/discovery-call"
  }

  /** The NEXT button's `disabled` guard. */
  predicate NextDisabled(s: State)
  {
    |s.range| == 0 || |s.innerValue| == 0
  }

  function PrevButton(): Button.Props
  {
    Button.Props("PREV STEP", Button.Outline, "/", false)
  }

  function NextButton(s: State): Button.Props
  {
    Button.Props("NEXT STEP", Button.Bulk, NextLink(s), NextDisabled(s))
  }

  /** The ad-spend answer never changes where NEXT leads. */
  lemma NextLinkIgnoresAdSpend(s: State, v: string)
    ensures NextLink(s.(innerValue := v)) == NextLink(s)
  {
  }

  /** NEXT leads nowhere while either answer is missing, and otherwise to a page of the
      route table chosen by the revenue answer alone. */
  lemma NextButtonTarget(s: State)
    ensures Button.Target(Button.Render(NextButton(s))) ==
      if NextDisabled(s) then None else Some(NextLink(s))
    ensures Routes.Resolve(NextLink(s)) ==
      if s.range == "unValid" then Routes.Warn else Routes.GetHired
  {
    Button.TargetOfButton(NextButton(s));
    Routes.RouteOfPath(2);
    Routes.RouteOfPath(3);
  }

  /** PREV always returns to the home page. */
  lemma PrevButtonTarget()
    ensures Button.Target(Button.Render(PrevButton())) == Some("/")
    ensures Routes.Resolve("/") == Routes.Home
  {
    Button.TargetOfButton(PrevButton());
    Routes.RouteOfPath(0);
  }

  /** After any sequence of real selections, each answer is empty exactly when it was never
      chosen, and otherwise it is the last value chosen, one of its options. */
  lemma {:induction false} RunSelections(events: seq<Event>)
    requires forall k | 0 <= k < |events| :: Selectable(events[k])
    ensures var s := Run(events);
      && (s.range == "" <==> forall k | 0 <= k < |events| :: !events[k].PickRange?)
      && (s.innerValue == "" <==> forall k | 0 <= k < |events| :: !events[k].PickInnerValue?)
      && (s.range == "" || s.range in RevenueOptions)
      && (s.innerValue == "" || s.innerValue in AdSpendOptions)
  {
    if events != [] {
      var init := events[..|events| - 1];
      var e := events[|events| - 1];
      assert forall k | 0 <= k < |init| :: init[k] == events[k];
      RunSelections(init);
      assert "" !in RevenueOptions && "" !in AdSpendOptions;
    }
  }

  /** NEXT is disabled exactly until both questions have been answered, and then stays
      enabled: a selection never returns to the placeholder. */
  lemma NextEnabledIffBothAnswered(events: seq<Event>)
    requires forall k | 0 <= k < |events| :: Selectable(events[k])
    ensures !NextDisabled(Run(events)) <==>
      (exists k | 0 <= k < |events| :: events[k].PickRange?)
      && (exists k | 0 <= k < |events| :: events[k].PickInnerValue?)
  {
    RunSelections(events);
  }

  /** Both buttons of the page lead to links of the site's link list, whatever is
      selected. */
  lemma HireLinksListed(s: State)
    ensures NextButton(s).link in Routes.FunnelLinks
    ensures PrevButton().link in Routes.FunnelLinks
  {
    assert Routes.FunnelLinks[0] == PrevButton().link;
    assert Routes.FunnelLinks[1] == "/disqualified" && Routes.FunnelLinks[2] == "/discovery-call";
  }

  /** On arrival nothing is selected, so NEXT starts disabled. */
  lemma InitiallyDisabled()
    ensures Run([]) == Initial && NextDisabled(Initial)
    ensures Button.Target(Button.Render(NextButton(Initial))) == None
  {
    NextButtonTarget(Initial);
  }
}
