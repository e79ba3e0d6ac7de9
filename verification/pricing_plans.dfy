/** The pricing grid shown in the popup: four plan cards, a badge naming the
    current plan and a subscribe button. The selection is the grid's own
    state and only ever changes by clicking a card. */
module PricingPlans {
  import opened Lists
  import opened Plans
  import PlanSelector

  /** The grid's own table of tiers, in display order. */
  const Table: seq<Plan> := [
    Plan("free", "Gratuito", 5, None, false),
    Plan("pro", "Pro", 250, Some(29.8), false),
    Plan("plus", "Plus", 500, Some(49.9), true),
    Plan("premium", "Premium", 1000, Some(79.8), false)
  ]

  /** The grid's copy of the table agrees with the selector's entry for
      entry: same ids, names, quotas, prices and badges, in the same order. */
  lemma TablesAgree()
    ensures |Table| == |PlanSelector.Table|
    ensures forall i :: 0 <= i < |Table| ==>
              Table[i].id == PlanSelector.Table[i].id && Table[i].messages == PlanSelector.Table[i].messages
    ensures Table == PlanSelector.Table
    ensures WellFormed(Table)
  {
    PlanSelector.TableFacts();
  }

  datatype PricingState = PricingState(selectedPlan: string)

  /** The grid starts on the free plan. */
  const Initial: PricingState := PricingState(FreeId)

  /** Clicking the card at position `card`: that card's id becomes the selection. */
  function ClickCard(st: PricingState, card: nat): (r: PricingState)
    requires card < |Table|
    ensures InTable(Table, r.selectedPlan)
    ensures r.selectedPlan == Table[card].id
  {
    PricingState(Table[card].id)
  }

  /** The state after a run of card clicks from the initial one. */
  function Run(clicks: seq<nat>): (st: PricingState)
    requires forall k :: 0 <= k < |clicks| ==> clicks[k] < |Table|
  {
    if clicks == [] then Initial
    else ClickCard(Run(clicks[..|clicks| - 1]), clicks[|clicks| - 1])
  }

  /** Whatever the clicks, the selection is always an id from the table. */
  lemma {:induction false} RunStaysInTable(clicks: seq<nat>)
    requires forall k :: 0 <= k < |clicks| ==> clicks[k] < |Table|
    ensures InTable(Table, Run(clicks).selectedPlan)
  {
    if clicks == [] {
      assert Table[0].id == Initial.selectedPlan;
    }
  }

  /** The badge text: the name of the plan carrying the selected id, found
      whenever the selection is in the table. */
  function CurrentPlanName(st: PricingState): (name: Option<string>)
    ensures name.None? <==> !InTable(Table, st.selectedPlan)
    ensures forall i :: 0 <= i < |Table| && Table[i].id == st.selectedPlan ==> name == Some(Table[i].name)
  {
    TablesAgree();
    match FindPlan(Table, st.selectedPlan)
    case Some(p) => Some(p.name)
    case None => None
  }

  /** The subscribe button under the grid. */
  predicate ShowSubscribe(st: PricingState) {
    st.selectedPlan != FreeId
  }

  /** Whenever the selection is in the table, the badge names a plan and
      the subscribe button is offered exactly when that plan is a paid one. */
  lemma BadgeAndSubscribe(st: PricingState)
    requires InTable(Table, st.selectedPlan)
    ensures CurrentPlanName(st).Some?
    ensures forall i :: 0 <= i < |Table| && Table[i].id == st.selectedPlan ==>
              (ShowSubscribe(st) <==> Table[i].price.Some?)
  {
    forall i | 0 <= i < |Table| && Table[i].id == st.selectedPlan
      ensures ShowSubscribe(st) <==> Table[i].price.Some?
    {
      assert i == 0 || i == 1 || i == 2 || i == 3;
    }
  }

  /** On every reachable state the badge names a plan and the subscribe
      button is offered exactly for a paid plan. */
  lemma {:induction false} ReachableBadgeAndSubscribe(clicks: seq<nat>)
    requires forall k :: 0 <= k < |clicks| ==> clicks[k] < |Table|
    ensures CurrentPlanName(Run(clicks)).Some?
    ensures forall i :: 0 <= i < |Table| && Table[i].id == Run(clicks).selectedPlan ==>
              (ShowSubscribe(Run(clicks)) <==> Table[i].price.Some?)
  {
    RunStaysInTable(clicks);
    BadgeAndSubscribe(Run(clicks));
  }

  /** The initial grid offers no subscription and names the free plan. */
  lemma InitialShowsFreePlan()
    ensures !ShowSubscribe(Initial)
    ensures CurrentPlanName(Initial) == Some("Gratuito")
  {
    assert Table[0].id == Initial.selectedPlan;
  }
}
