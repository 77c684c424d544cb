/** How many grid tiles a plane may carry, from its session capacity and its transport budget. */
module MirrorCapacity {
  import opened Quotients

  /** A plane's bounds: sessions, sessions kept for the operator, and the transport's budget at a level's price. */
  datatype Config = Config(max: nat, reserve: nat, budgetKbps: int, bitrateKbps: int)

  /** The configurations an engine is built with: the reserve is positive and leaves a place, one stream fits. */
  predicate Consistent(c: Config) {
    0 < c.reserve < c.max && 0 < c.bitrateKbps <= c.budgetKbps
  }

  function AllowanceKbps(budgetKbps: int, bitrateKbps: int): nat {
    if bitrateKbps <= 0 || budgetKbps <= 0 then 0 else budgetKbps / bitrateKbps
  }

  function AmbientCapacity(c: Config): nat {
    if c.max < c.reserve then 0 else c.max - c.reserve
  }

  function TileAllowance(c: Config): nat {
    var priced := AllowanceKbps(c.budgetKbps, c.bitrateKbps) - c.reserve;
    var carriable := if priced < 0 then 0 else priced;
    if carriable < AmbientCapacity(c) then carriable else AmbientCapacity(c)
  }

  /** What a budget carries at a price is what fits it, and nothing can be carried at no price. */
  lemma CarriedFits(budget: int, bitrate: int, streams: nat)
    requires streams > 0
    ensures streams <= AllowanceKbps(budget, bitrate) <==> 0 < bitrate && streams * bitrate <= budget
  {
    if 0 < bitrate {
      if 0 < budget {
        DivisionFrom(budget, bitrate, streams);
      } else {
        assert streams * bitrate > 0;
      }
    }
  }

  /**
   A positive number of tiles is allowed exactly when it leaves the operator's sessions free and fits the budget
   together with the operator's own streams: the allowance is the largest number that does both.
   */
  lemma AllowanceIsLargest(c: Config, tiles: nat)
    requires c.reserve <= c.max && tiles > 0
    ensures tiles <= TileAllowance(c) <==>
            && tiles + c.reserve <= c.max
            && 0 < c.bitrateKbps && (tiles + c.reserve) * c.bitrateKbps <= c.budgetKbps
  {
    CarriedFits(c.budgetKbps, c.bitrateKbps, tiles + c.reserve);
    hide AllowanceKbps;
  }

  /** The refusal a new session meets, from how many sessions there are and how many no operator is watching. */
  datatype Refusal = Admitted | PlaneFull | TileShareSpent(share: nat)

  function Verdict(c: Config, ambient: bool, sessions: nat, unwatched: nat): Refusal {
    if sessions >= c.max then PlaneFull
    else if ambient && unwatched >= TileAllowance(c) then TileShareSpent(TileAllowance(c))
    else Admitted
  }

  /** An operator's new session is refused exactly when the plane is full, whatever nobody is watching. */
  lemma OperatorIsRefused(c: Config, sessions: nat, unwatched: nat)
    ensures Verdict(c, false, sessions, unwatched) == if sessions >= c.max then PlaneFull else Admitted
  {
  }

  /**
   A tile's is admitted exactly when there is a place, and with one tile more the sessions no operator is watching leave
   the reserve free and fit the budget together with it.
   */
  lemma TileIsAdmitted(c: Config, sessions: nat, unwatched: nat)
    requires c.reserve <= c.max
    ensures Verdict(c, true, sessions, unwatched) == Admitted <==>
            && sessions < c.max && unwatched + 1 + c.reserve <= c.max
            && 0 < c.bitrateKbps && (unwatched + 1 + c.reserve) * c.bitrateKbps <= c.budgetKbps
  {
    AllowanceIsLargest(c, unwatched + 1);
    hide TileAllowance;
  }

  /** It is refused for the plane when that is full, and otherwise for the tile share, which the refusal states. */
  lemma TileRefusalStates(c: Config, sessions: nat, unwatched: nat, tiles: nat)
    requires c.reserve <= c.max && tiles > 0
    ensures var v := Verdict(c, true, sessions, unwatched);
            && (v == PlaneFull <==> sessions >= c.max)
            && (v.TileShareSpent? ==>
                  (tiles <= v.share <==>
                   && tiles + c.reserve <= c.max
                   && 0 < c.bitrateKbps && (tiles + c.reserve) * c.bitrateKbps <= c.budgetKbps))
  {
    AllowanceIsLargest(c, tiles);
    hide TileAllowance;
  }
}
