/** What a subscription plan is and how a plan table is searched, shared by
    the two plan pickers (each of which carries its own copy of the table).
    Icons, colour gradients and feature blurbs are presentation and left out. */
module Plans {
  import opened Lists

  /** A tier: its id, display name, monthly message quota, monthly price in
      reais (none for the free tier) and whether it carries a "popular" badge. */
  datatype Plan = Plan(id: string, name: string, messages: nat, price: Option<real>, popular: bool)

  /** The id every plan table starts with and falls back to. */
  const FreeId: string := "free"

  function PlanId(p: Plan): string {
    p.id
  }

  function HasPlanId(id: string): Plan -> bool {
    (p: Plan) => p.id == id
  }

  /** `id` names an entry of `table`. */
  predicate InTable(table: seq<Plan>, id: string) {
    exists i :: 0 <= i < |table| && table[i].id == id
  }

  /** A table fit for lookups: non-empty, distinct ids, positive quotas. */
  predicate WellFormed(table: seq<Plan>) {
    && |table| > 0
    && DistinctBy(table, PlanId)
    && forall i :: 0 <= i < |table| ==> table[i].messages > 0
  }

  /** `table.find(p => p.id === id)`: the entry carrying `id`, which is
      unique in a well-formed table. */
  function FindPlan(table: seq<Plan>, id: string): (r: Option<Plan>)
    requires WellFormed(table)
    ensures r.None? <==> !InTable(table, id)
    ensures forall i :: 0 <= i < |table| && table[i].id == id ==> r == Some(table[i])
  {
    var r := Find(table, HasPlanId(id));
    assert forall i, j :: 0 <= j < i < |table| && table[i].id == id ==> table[j].id != id by {
      forall i, j | 0 <= j < i < |table| && table[i].id == id
        ensures table[j].id != id
      {
        assert PlanId(table[j]) != PlanId(table[i]);
      }
    }
    r
  }
}
