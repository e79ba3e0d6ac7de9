/** The plan selector: a summary card showing the current plan and a usage
    bar, which opens a bottom sheet listing every plan. The selected plan
    and the used-message counter belong to the caller; the sheet's open flag
    is the selector's own state. */
module PlanSelector {
  import opened Lists
  import opened Plans

  /** The selector's table of tiers, in display order. */
  const Table: seq<Plan> := [
    Plan("free", "Gratuito", 5, None, false),
    Plan("pro", "Pro", 250, Some(29.8), false),
    Plan("plus", "Plus", 500, Some(49.9), true),
    Plan("premium", "Premium", 1000, Some(79.8), false)
  ]

  /** The table is fit for lookups and holds the four tiers with their
      quotas; the free tier comes first and is the only one without a price. */
  lemma TableFacts()
    ensures WellFormed(Table)
    ensures |Table| == 4 && Table[0].id == FreeId
    ensures Table[0].id == "free" && Table[0].messages == 5
    ensures Table[1].id == "pro" && Table[1].messages == 250
    ensures Table[2].id == "plus" && Table[2].messages == 500
    ensures Table[3].id == "premium" && Table[3].messages == 1000
    ensures forall i :: 0 <= i < |Table| ==> (Table[i].price.None? <==> Table[i].id == FreeId)
  {
  }

  /** The plan the summary card shows: the entry carrying the selected id,
      or the first (free) entry when no entry carries it. Its quota is
      always positive. */
  function CurrentPlan(selectedPlan: string): (p: Plan)
    ensures p in Table && p.messages > 0
    ensures InTable(Table, selectedPlan) ==> p.id == selectedPlan
    ensures !InTable(Table, selectedPlan) ==> p == Table[0]
  {
    TableFacts();
    match FindPlan(Table, selectedPlan)
    case Some(p) => p
    case None => Table[0]
  }

  function Min(a: real, b: real): real {
    if a <= b then a else b
  }

  /** `Math.min((used / total) * 100, 100)` for a positive total: at most
      100, non-negative for a non-negative count, 100 exactly from the total
      on, and the exact share of the total below it. */
  function CappedShare(used: int, total: nat): (pct: real)
    requires total > 0
    ensures pct <= 100.0
    ensures used >= 0 ==> pct >= 0.0
    ensures pct == 100.0 <==> used >= total
    ensures used < total ==> pct == (used as real) * 100.0 / (total as real)
  {
    CappedShareFacts(used as real, total as real);
    Min((used as real / total as real) * 100.0, 100.0)
  }

  /** The same facts over the reals, with the total kept abstract. */
  lemma CappedShareFacts(used: real, total: real)
    requires total > 0.0
    ensures var pct := Min((used / total) * 100.0, 100.0);
      && pct <= 100.0
      && (used >= 0.0 ==> pct >= 0.0)
      && (pct == 100.0 <==> used >= total)
      && (used < total ==> pct == used * 100.0 / total)
  {
    var q := used / total;
    assert q * total == used;
    if used >= total {
      assert q >= 1.0;
    } else {
      assert q < 1.0;
    }
  }

  /** A larger count never gives a smaller capped share of the same total. */
  lemma CappedShareMonotone(used: int, more: int, total: nat)
    requires total > 0 && used <= more
    ensures CappedShare(used, total) <= CappedShare(more, total)
  {
    assert used as real / total as real <= more as real / total as real;
  }

  /** Width of the usage bar, in percent of the current plan's quota, capped
      at 100. It reaches 100 exactly when the quota is used up, and below
      that it is the exact share of the quota used. */
  function Percentage(selectedPlan: string, usedMessages: int): (pct: real)
    ensures pct <= 100.0
    ensures usedMessages >= 0 ==> pct >= 0.0
    ensures pct == 100.0 <==> usedMessages >= CurrentPlan(selectedPlan).messages
    ensures usedMessages < CurrentPlan(selectedPlan).messages ==>
              pct == (usedMessages as real) * 100.0 / (CurrentPlan(selectedPlan).messages as real)
  {
    CappedShare(usedMessages, CurrentPlan(selectedPlan).messages)
  }

  /** For a fixed plan, more messages used never shrinks the bar. */
  lemma PercentageMonotone(selectedPlan: string, used: int, more: int)
    requires used <= more
    ensures Percentage(selectedPlan, used) <= Percentage(selectedPlan, more)
  {
    CappedShareMonotone(used, more, CurrentPlan(selectedPlan).messages);
  }

  /** The id handed to the caller's callback and the sheet's open flag. */
  datatype Selection = Selection(reported: string, isOpen: bool)

  /** What picking a plan in the sheet does: the picked id goes to the
      caller's callback and the sheet closes, whatever its state was. */
  function HandleSelectPlan(isOpen: bool, planId: string): (r: Selection)
    ensures r.reported == planId
    ensures !r.isOpen
  {
    Selection(planId, false)
  }

  /** A card carries the selected mark when its id is the selected one. */
  predicate IsSelected(selectedPlan: string, card: Plan) {
    selectedPlan == card.id
  }

  /** The cards carrying the selected mark. */
  function Marked(selectedPlan: string): Plan -> bool {
    (p: Plan) => IsSelected(selectedPlan, p)
  }

  /** At most one card is marked, and exactly one when the selected id is
      in the table. */
  lemma AtMostOneCardSelected(selectedPlan: string)
    ensures Count(Table, Marked(selectedPlan)) <= 1
    ensures Count(Table, Marked(selectedPlan)) == 1 <==> InTable(Table, selectedPlan)
  {
    TableFacts();
    DistinctBySelectsAtMostOne(Table, PlanId, Marked(selectedPlan), selectedPlan);
  }

  /** The subscribe button at the foot of the sheet. */
  predicate ShowSubscribe(selectedPlan: string) {
    selectedPlan != FreeId
  }

  /** For a selection from the table the button is offered exactly for the
      paid plans. For an id outside the table the button is still offered,
      and its label names the free plan that the lookup fell back to. */
  lemma SubscribeOffersPaidPlans(selectedPlan: string)
    ensures InTable(Table, selectedPlan) ==>
              (ShowSubscribe(selectedPlan) <==> CurrentPlan(selectedPlan).price.Some?)
    ensures !InTable(Table, selectedPlan) ==>
              ShowSubscribe(selectedPlan) && CurrentPlan(selectedPlan).id == FreeId
  {
    TableFacts();
    if !InTable(Table, selectedPlan) {
      assert selectedPlan != Table[0].id;
    }
  }
}
