/**
 The budget as one caller sees it between its own calls: `try_charge` and `uncharge` as
 single operations on the counters, which is what `ChargeSteps.AloneIsAtomic` and
 `ChargeSteps.UnchargeIsAtomic` show an uninterrupted call to be.
 */
module SharedBudget {
  import opened ChargeSteps

  lemma TotalCovers(ps: Pools, p: Pool)
    ensures ps.At(p) <= ps.Total()
  {
  }

  class Ledger {
    const budget: Budget
    var memCharged: nat
    var pools: Pools
    // what the embedder's accountant, if there is one, has booked for this budget
    var share: nat

    ghost predicate Valid()
      reads this
    {
      && BudgetOk(budget) && memCharged == pools.Total()
      && (budget.Limited? ==> memCharged <= budget.total)
      && (budget.Accounted? ==> share == memCharged <= budget.limit)
    }

    constructor (budget: Budget)
      requires BudgetOk(budget)
      ensures Valid() && memCharged == 0 && pools == Pools(0, 0, 0) && this.budget == budget
    {
      this.budget := budget;
      memCharged, pools, share := 0, Pools(0, 0, 0), 0;
    }

    /** The counters, with everything charged owned by somebody. */
    ghost function Counters(): State
      reads this
    {
      State(memCharged, pools, share, pools, [])
    }

    /** The charge would be let through; `accept` is the embedder's answer if one is asked. */
    predicate Admits(bytes: nat, accept: bool)
      reads this
    {
      ChargeSteps.Admits(budget, memCharged, share, bytes, accept)
    }

    /** Charges all of `bytes` to `pool`, or nothing. */
    method TryCharge(pool: Pool, bytes: nat, accept: bool) returns (ok: bool)
      requires Valid()
      modifies this
      ensures Valid() && ok == old(Admits(bytes, accept))
      ensures Counters() == ChargeAlone(budget, old(Counters()), pool, bytes, accept)
      ensures pools == if ok then old(pools).With(pool, old(pools).At(pool) + bytes) else old(pools)
    {
      hide Pools.At, Pools.With, Pools.Total;
      if bytes == 0 {
        WithSame(pools, pool);
        return true;
      }
      match budget {
        case Accounted(limit) =>
          if !(accept && share + bytes <= limit) { return false; }
          share := share + bytes;
        case Unlimited =>
        case Limited(total) =>
          if !Fits(total, memCharged, bytes) { return false; }
      }
      memCharged := memCharged + bytes;
      pools := pools.With(pool, pools.At(pool) + bytes);
      ok := true;
    }

    /** Gives back bytes the caller owns. */
    method Uncharge(pool: Pool, bytes: nat)
      requires Valid() && bytes <= pools.At(pool)
      modifies this
      ensures Valid() && bytes <= old(memCharged) && Shared(budget, bytes) <= old(share)
      ensures Counters() == UnchargeAlone(budget, old(Counters()), pool, bytes)
      ensures pools == old(pools).With(pool, old(pools).At(pool) - bytes)
    {
      TotalCovers(pools, pool);
      hide Pools.At, Pools.With, Pools.Total;
      if bytes == 0 {
        WithSame(pools, pool);
        return;
      }
      pools := pools.With(pool, pools.At(pool) - bytes);
      memCharged := memCharged - bytes;
      if budget.Accounted? { share := share - bytes; }
    }
  }
}
