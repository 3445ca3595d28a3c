/** Along every run the supply laws hold and no conservation assertion fires. */
module Liveness {
  import opened U256
  import opened Types
  import opened Validity
  import opened Ledgers
  import opened Fold
  import opened Conservation
  import opened AssetLaws
  import opened Solvency
  import opened Runs

  /** In every reachable state each asset's balances sum to its minted cell, which
      is at most its cap. */
  lemma {:induction false} RunIsBacked(run: seq<Step>, p: Params, n: nat)
    requires p.Valid() && IsRun(run, p) && n <= |run|
    ensures AssetsBacked(StateAt(run, n))
  {
    hide Apply, AssetsBacked, Sound;
    if n == 0 {
      EmptyIsBacked();
    } else {
      RunIsBacked(run, p, n - 1);
      RunIsSound(run, p, n - 1);
      assert StepOk(run, n - 1, p);
      SoundRing(run[n - 1].pre, p, n - 1);
      BlockKeepsBacked(run[n - 1].pre, run[n - 1].block, p, true);
    }
  }

  /** On top of any run, a block that breaks no rule is accepted, or refused by its
      state root; no conservation failure, no overflow skip and no sweep that lacks
      room is reachable while the issued coin fits in 256 bits. */
  lemma RunNeverFails(run: seq<Step>, p: Params, b: Block, checkRoot: bool)
    requires p.Valid() && IsRun(run, p) && b.header.height == |run|
    requires BlockRule(StateAt(run, |run|), b, p).None?
    requires p.Issued(|run|) < TWO256
    ensures
      var r := Apply(StateAt(run, |run|), b, p, checkRoot);
      && (r.Accepted? || r == Rejected(RuleFault(F14)))
      && (r.Accepted? ==> BlockNothingOverflowed(StateAt(run, |run|), b, p, r.res.outcomes))
  {
    hide Apply, BlockRule, AssetsBacked, Sound, Total, Params.Emission, BlockNothingOverflowed;
    var n := |run|;
    RunIsBacked(run, p, n);
    RunIsSound(run, p, n);
    SoundTarget(StateAt(run, n), p, n);
    RunConserves(run, p, n);
    IssuedStep(p, n + 1);
    BlockNeverFails(StateAt(run, n), b, p, checkRoot);
  }

  /** A deposit beyond what the schedule issues by the certificate's TTL is refused
      without looking at any state, and rightly: in no state in which the certificate
      could still be included does its deposit cell hold as much. */
  lemma BeyondIssuance(run: seq<Step>, p: Params, c: Certificate, n: nat)
    requires p.Valid() && IsRun(run, p) && n <= |run| && n <= c.ttl
    requires c.deposit.cell.word == Balance(NATIVE_ASSET) && c.deposit.amount > p.Issued(c.ttl)
    ensures !StatelessValid(c, p)
    ensures StateAt(run, n).Get(c.deposit.cell) < c.deposit.amount
  {
    hide Total, Params.Emission, Sound, Params.Valid, FeeCeiling, Canonical, DerivationMatches, SelfConsistent, Authorized;
    RunConserves(run, p, n);
    CellWithinTotal(StateAt(run, n).cells, Native(p.coinbaseMaturity), c.deposit.cell);
    IssuedGrows(p, if n == 0 then 0 else n - 1, c.ttl);
  }

  lemma {:induction false} IssuedGrows(p: Params, h: u64, k: u64)
    requires p.Valid() && h <= k
    ensures p.Issued(h) <= p.Issued(k)
    decreases k
  {
    hide Params.Emission, Params.Valid;
    if h < k {
      IssuedGrows(p, h, k - 1);
    }
  }
}
