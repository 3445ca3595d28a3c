/** What passing the wallet's pre-check is worth (wallet/policy.go): whatever happens
    to the certificate, no coin of the caller's is burned or stranded, and what a
    burned address still held comes back to the caller. */
module Custody {
  import opened U256
  import opened Types
  import opened Validity
  import opened Ledgers
  import opened Fold
  import opened CertLaws
  import opened BlockFrames
  import opened AssetLaws
  import opened NoOverflow
  import opened Solvency
  import opened Wallet
  import opened WalletLaws
  import opened Billing
  import opened Effects

  lemma AcceptedRefundLives(l: Ledger, c: Certificate, p: Params, owned: seq<Address>)
    requires Accepts(c, l, p, owned)
    ensures c.deposit.refundTo.addr !in l.spent
  {
  }

  lemma AcceptedComesHome(l: Ledger, c: Certificate, p: Params, owned: seq<Address>, a: Address)
    requires DerivationMatches(c, p) && Accepts(c, l, p, owned) && a in Burns(c) && a in owned
    ensures c.deposit.refundTo.addr in owned
  {
    hide DerivationMatches, Burns, FeeCeiling, SweepsWhole, Covered, PayeesFresh, RefundUsable;
    MarksAre(c, p);
    var w :| w in c.writes && w.op.OpMarkSpent? && w.slot.addr == a;
    var i :| 0 <= i < |c.writes| && c.writes[i] == w;
  }

  /** A certificate the wallet accepted, on a sound state: every settled outcome
      refunds the rest of the deposit in full, strands nothing, and whoever burns an
      address of their own owns the address its remainder goes to. */
  lemma CheckedLosesNothing(l: Ledger, c: Certificate, id: Hash, p: Params, owned: seq<Address>,
                            seqBase: u256, parBase: u256, burned: u256, maturity: nat)
    requires p.Valid() && StatelessValid(c, p) && Accepts(c, l, p, owned)
    requires AssetsBacked(l) && Total(l.cells, Native(maturity)) + burned < TWO256
    requires c.feeBid.seqMax >= seqBase && c.feeBid.parMax >= parBase
    ensures
      var r := ApplyCertificate(l, c, id, p, seqBase, parBase, burned);
      && r.CertSettled?
      && r.out.refundBurned == 0 && r.out.sweptStranded == 0 && r.out.strandedCells == 0
      && (r.out.outcome != Dropped ==> r.out.refunded == c.deposit.amount - r.out.charged)
    ensures forall a :: a in Burns(c) && a in owned ==> c.deposit.refundTo.addr in owned
  {
    hide StatelessValid, Accepts, ApplyCertificate, Total, AssetsBacked, Burns, AtSettlement, BaseFees, Tips, Reservable,
      DepositOk, DerivationMatches;
    AcceptedRefundLives(l, c, p, owned);
    CertIsClean(l, c, id, p, seqBase, parBase, burned, maturity);
    CertBilled(l, c, id, p, seqBase, parBase, burned);
    CertFrame(l, c, id, p, seqBase, parBase, burned, TreasurySlot());
    ValidDeposits(c, p);
    RefundUnmarked(c, p);
    ValidDerives(c, p);
    forall a | a in Burns(c) && a in owned
      ensures c.deposit.refundTo.addr in owned
    {
      AcceptedComesHome(l, c, p, owned, a);
    }
  }

  /** The refund rule asks exactly that the refund address be alive once the
      certificate has run, for every certificate whose refund does not go to its own
      one-shot deposit address. */
  lemma RefundUsableMeans(l: Ledger, c: Certificate)
    requires !(IsOneShot(c.deposit.cell.addr) && c.deposit.refundTo.addr == c.deposit.cell.addr)
    ensures RefundUsable(c.program, c.deposit, l) <==> c.deposit.refundTo.addr !in l.spent + Burns(c)
  {
    var a, moves := c.deposit.refundTo.addr, MovesOf(c.program);
    forall i | 0 <= i < |moves|
      ensures moves[i] in moves
    {
    }
  }

  /** A one-shot address an accepted certificate pays holds afterwards exactly what
      it was paid, of the asset it was paid in. */
  lemma FreshPayeeHolds(l: Ledger, c: Certificate, id: Hash, p: Params, owned: seq<Address>,
                        seqBase: u256, parBase: u256, burned: u256, maturity: nat, i: nat)
    requires p.Valid() && StatelessValid(c, p) && Accepts(c, l, p, owned) && PoolsFit(l, maturity)
    requires c.program.Transfer? && i < |c.program.moves| && IsOneShot(c.program.moves[i].dst)
    requires c.program.moves[i].dst != c.deposit.refundTo.addr
    ensures
      var r := ApplyCertificate(l, c, id, p, seqBase, parBase, burned);
      var slot := PayeeSlot(c.program.moves[i]);
      r.CertSettled? && r.out.outcome == Applied ==> r.ledger.Get(slot) == CreditOf(c.program.moves, slot)
  {
    hide StatelessValid, PoolsFit, ApplyCertificate, FeeCeiling, SweepsWhole, Covered, RefundUsable, ResidualComesHome,
      DebitOf, CreditOf, DerivationMatches, Residues, Holders;
    var moves := c.program.moves;
    var slot := PayeeSlot(moves[i]);
    CertEffect(l, c, id, p, seqBase, parBase, burned, maturity);
    ValidDerives(c, p);
    PayeeIsNoSource(c, p, i);
    PayeeIsNotBurned(c, p, i);
    PayeeWasEmpty(l, c, p, owned, i);
  }

  lemma PayeeWasEmpty(l: Ledger, c: Certificate, p: Params, owned: seq<Address>, i: nat)
    requires Accepts(c, l, p, owned) && c.program.Transfer? && i < |c.program.moves| && IsOneShot(c.program.moves[i].dst)
    ensures l.Get(PayeeSlot(c.program.moves[i])) == 0
  {
    hide FeeCeiling, SweepsWhole, Covered, RefundUsable, ResidualComesHome;
    assert MovesOf(c.program)[i] == c.program.moves[i];
  }

  lemma ValidIsConsistent(c: Certificate, p: Params)
    requires p.Valid() && StatelessValid(c, p)
    ensures SelfConsistent(c)
  {
    hide Canonical, DerivationMatches, SelfConsistent, DepositOk, KnownVersions, NoProtocolWrites, Authorized,
      SignaturesVerify;
  }

  /** Nothing is paid to an address the certificate burns. */
  lemma PayeeIsNotBurned(c: Certificate, p: Params, i: nat)
    requires p.Valid() && StatelessValid(c, p) && c.program.Transfer? && i < |c.program.moves|
    ensures c.program.moves[i].dst !in Burns(c)
    ensures IsOneShot(c.program.moves[i].dst) ==> PayeeSlot(c.program.moves[i]) != c.deposit.cell
  {
    hide StatelessValid, DerivationMatches;
    ValidDerives(c, p);
    ValidIsConsistent(c, p);
    MarksAre(c, p);
    IsPayeeAt(c.program.moves, i);
    var k := PayeeIsCredited(c, p, PayeeSlot(c.program.moves[i]));
    assert c.writes[k] in c.writes;
    MarkedMarks(c, c.program.moves[i].dst);
  }

  /** No move takes from a cell another move pays. */
  lemma PayeeIsNoSource(c: Certificate, p: Params, i: nat)
    requires DerivationMatches(c, p) && c.program.Transfer? && i < |c.program.moves|
    ensures
      var slot := PayeeSlot(c.program.moves[i]);
      !IsSource(c.program.moves, slot) && DebitOf(c.program.moves, slot) == 0
  {
    hide DerivationMatches, TransferOk, DebitOf;
    DerivesSomething(c, p);
    var moves := c.program.moves;
    var slot := PayeeSlot(moves[i]);
    IsPayeeAt(moves, i);
    if IsSource(moves, slot) {
      SourceIsNoPayee(moves, slot);
    }
    NotASource(moves, slot);
  }
}
