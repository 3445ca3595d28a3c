/** What the stateless rules come to (core/validity): once the declared sets are the
    derived ones, V6 refuses exactly the certificates that pay an address they burn,
    V7 and V9 refuse nothing, and V5 asks of the refund address only that it is not
    burned. */
module Admission {
  import opened Types
  import opened Validity
  import opened Derivation
  import opened AssetLaws
  import opened Wallet
  import opened WalletLaws
  import opened Effects
  import opened Signers

  /** No payee is burned by the certificate that pays it. */
  ghost predicate PaysNoBurned(c: Certificate) {
    match c.program
    case Transfer(moves) => forall i :: 0 <= i < |moves| ==> moves[i].dst !in Burns(c)
    case Mint(_, dst, _, _, _) => dst !in Burns(c)
    case _ => true
  }

  // --------------------------------------------------- V6, clause by clause

  lemma MarkedIsBurned(c: Certificate, p: Params, a: Address)
    requires DerivationMatches(c, p)
    ensures Marks(c.writes, a) <==> a in Burns(c)
  {
    hide DerivationMatches, Burns;
    MarksAre(c, p);
    MarkedMarks(c, a);
  }

  lemma BurnedIsOneShot(c: Certificate, p: Params, a: Address)
    requires DerivationMatches(c, p) && a in Burns(c)
    ensures IsOneShot(a)
  {
    hide DerivationMatches, Burns;
    MarkedIsBurned(c, p, a);
    var i :| 0 <= i < |c.writes| && c.writes[i].op.OpMarkSpent? && c.writes[i].slot.addr == a;
    ValidWriteShape(c, p, c.writes[i]);
  }

  lemma SubIsSource(c: Certificate, p: Params, w: Write)
    requires DerivationMatches(c, p) && w in c.writes && w.op.OpDeltaSub?
    ensures c.program.Transfer? && IsSource(c.program.moves, w.slot)
  {
    hide DerivationMatches, Debits, Credits, TransferOk;
    DerivesSomething(c, p);
    DeclaredWrite(c, p, w);
    var moves := c.program.moves;
    SumsAreFit(moves);
    var d, k, m := DeltaWrites(Debits(moves), OpDeltaSub), DeltaWrites(Credits(moves), OpDeltaAdd),
                   MarkWrites(BurnedSources(moves));
    assert w in d + k + m;
    var i :| 0 <= i < |d| && d[i] == w;
    DebitEntryIsSource(moves, i);
  }

  lemma SourceIsBurned(c: Certificate, p: Params, w: Write)
    requires DerivationMatches(c, p) && w in c.writes && w.op.OpDeltaSub? && IsOneShot(w.slot.addr)
    ensures w.slot.addr in Burns(c)
  {
    hide DerivationMatches;
    SubIsSource(c, p, w);
    var i :| 0 <= i < |c.program.moves| && SourceSlot(c.program.moves[i]) == w.slot;
    assert c.program.moves[i] in MovesOf(c.program);
  }

  lemma AddsFit(c: Certificate, p: Params, w: Write)
    requires DerivationMatches(c, p) && w in c.writes && w.op.OpDeltaAdd?
    ensures AddFits(c, w)
  {
    hide DerivationMatches, Debits, Credits, TransferOk;
    DerivesSomething(c, p);
    DeclaredWrite(c, p, w);
    if c.program.Transfer? {
      SumsAreFit(c.program.moves);
    }
    forall r: Read {
      DeclaredRead(c, p, r);
    }
  }

  lemma SoundClauses(c: Certificate, p: Params, w: Write)
    requires DerivationMatches(c, p) && w in c.writes
    ensures w.op.OpMarkSpent? ==> IsUser(w.slot.addr)
    ensures w.op.OpDeltaSub? ==> SubIsCovered(c, w)
    ensures w.op.OpDeltaAdd? ==> AddFits(c, w)
    ensures (w.op.OpDeltaSub? || w.op.OpSet?) && IsOneShot(w.slot.addr) ==> Marks(c.writes, w.slot.addr)
    ensures w.op.OpSet? ==> !Marks(c.writes, w.slot.addr)
  {
    hide DerivationMatches, Burns, Marks, AddFits;
    ValidWriteShape(c, p, w);
    MarkedIsBurned(c, p, w.slot.addr);
    match w.op {
      case OpMarkSpent =>
      case OpDeltaSub =>
        SubIsGuarded(c, p, w);
        if IsOneShot(w.slot.addr) {
          SourceIsBurned(c, p, w);
        }
      case OpDeltaAdd => AddsFit(c, p, w);
      case OpSet =>
        if w.slot.addr in Burns(c) {
          BurnedIsOneShot(c, p, w.slot.addr);
        }
    }
  }

  /** No credit goes to an address of the declared marks. */
  predicate CreditsLive(c: Certificate) {
    forall w :: w in c.writes && w.op.OpDeltaAdd? ==> !Marks(c.writes, w.slot.addr)
  }

  lemma CreditedIsPaid(c: Certificate, p: Params, w: Write)
    requires DerivationMatches(c, p) && PaysNoBurned(c) && w in c.writes && w.op.OpDeltaAdd?
    ensures w.slot.addr !in Burns(c)
  {
    hide DerivationMatches, Burns;
    DerivesSomething(c, p);
    if c.program.Transfer? {
      AddIsPayee(c, p, w);
      var i :| 0 <= i < |c.program.moves| && PayeeSlot(c.program.moves[i]) == w.slot;
    } else {
      DeclaredWrite(c, p, w);
      if w.slot.addr in Burns(c) {
        BurnedIsOneShot(c, p, w.slot.addr);
      }
    }
  }

  lemma AddIsPayee(c: Certificate, p: Params, w: Write)
    requires DerivationMatches(c, p) && c.program.Transfer? && w in c.writes && w.op.OpDeltaAdd?
    ensures IsPayee(c.program.moves, w.slot)
  {
    hide DerivationMatches, Debits, Credits, TransferOk;
    DerivesSomething(c, p);
    DeclaredWrite(c, p, w);
    var moves := c.program.moves;
    SumsAreFit(moves);
    var d, k, m := DeltaWrites(Debits(moves), OpDeltaSub), DeltaWrites(Credits(moves), OpDeltaAdd),
                   MarkWrites(BurnedSources(moves));
    assert w in d + k + m;
    var i :| 0 <= i < |k| && k[i] == w;
    CreditIsPayee(moves, i);
    var j :| 0 <= j < |moves| && BalanceSlot(moves[j].dst, moves[j].asset) == w.slot;
    assert PayeeSlot(moves[j]) == w.slot;
  }

  lemma PaidIsCredited(c: Certificate, p: Params)
    requires DerivationMatches(c, p) && CreditsLive(c)
    ensures PaysNoBurned(c)
  {
    hide DerivationMatches, Burns, Marks;
    match c.program {
      case Transfer(moves) =>
        forall i | 0 <= i < |moves|
          ensures moves[i].dst !in Burns(c)
        {
          IsPayeeAt(moves, i);
          var k := PayeeIsCredited(c, p, PayeeSlot(moves[i]));
          MarkedIsBurned(c, p, moves[i].dst);
          assert c.writes[k] in c.writes;
        }
      case Mint(asset, dst, amount, _, _) =>
        MintDeclares(c, p);
        MarkedIsBurned(c, p, dst);
        assert Write(BalanceSlot(dst, asset), OpDeltaAdd, amount) in c.writes;
      case _ =>
    }
  }

  /** V6 refuses exactly the certificates that pay an address they burn. */
  lemma ConsistentMeans(c: Certificate, p: Params)
    requires DerivationMatches(c, p)
    ensures SelfConsistent(c) <==> PaysNoBurned(c)
  {
    hide DerivationMatches, Burns, Marks, PaysNoBurned, AddFits, SubIsCovered;
    forall w | w in c.writes
      ensures w.op.OpMarkSpent? ==> IsUser(w.slot.addr)
      ensures w.op.OpDeltaSub? ==> SubIsCovered(c, w)
      ensures w.op.OpDeltaAdd? ==> AddFits(c, w)
      ensures (w.op.OpDeltaSub? || w.op.OpSet?) && IsOneShot(w.slot.addr) ==> Marks(c.writes, w.slot.addr)
      ensures w.op.OpSet? ==> !Marks(c.writes, w.slot.addr)
    {
      SoundClauses(c, p, w);
    }
    DepositIsMarked(c, p);
    assert SelfConsistent(c) <==> CreditsLive(c);
    if PaysNoBurned(c) {
      forall w | w in c.writes && w.op.OpDeltaAdd?
        ensures !Marks(c.writes, w.slot.addr)
      {
        CreditedIsPaid(c, p, w);
        MarkedIsBurned(c, p, w.slot.addr);
      }
    }
    if CreditsLive(c) {
      PaidIsCredited(c, p);
    }
  }

  lemma DepositIsMarked(c: Certificate, p: Params)
    requires DerivationMatches(c, p)
    ensures IsOneShot(c.deposit.cell.addr) ==> Marks(c.writes, c.deposit.cell.addr)
  {
    hide DerivationMatches, Marks;
    MarkedIsBurned(c, p, c.deposit.cell.addr);
  }

  // -------------------------------------------------------- V5, V7 and V9

  /** The deposit and the refund are native user cells, and the deposit covers the
      worst charge without passing what can have been issued. */
  predicate DepositCovers(c: Certificate, p: Params)
    requires p.Valid()
  {
    && c.deposit.cell == NativeSlot(c.deposit.cell.addr) && IsUser(c.deposit.cell.addr)
    && c.deposit.refundTo == NativeSlot(c.deposit.refundTo.addr) && IsUser(c.deposit.refundTo.addr)
    && FeeCeiling(c, p).Some?
    && FeeCeiling(c, p).value <= c.deposit.amount <= p.Issued(c.ttl)
  }

  lemma DepositMeans(c: Certificate, p: Params)
    requires p.Valid() && DerivationMatches(c, p)
    ensures DepositOk(c, p) <==> DepositCovers(c, p) && c.deposit.refundTo.addr !in Burns(c)
  {
    hide DerivationMatches, Burns, Marks, FeeCeiling, Params.Issued;
    MarkedIsBurned(c, p, c.deposit.refundTo.addr);
    MarkedIsBurned(c, p, c.deposit.cell.addr);
    DepositIsMarked(c, p);
  }

  lemma NothingElseIsTouched(c: Certificate, p: Params)
    requires p.Valid() && DerivationMatches(c, p)
    ensures NoProtocolWrites(c)
    ensures DepositOk(c, p) ==> KnownVersions(c)
  {
    hide DerivationMatches, FeeCeiling, Params.Issued;
    forall w | w in c.writes
      ensures VERSION_PROTOCOL < Version(w.slot.addr) <= VERSION_ASSET
    {
      ValidWriteShape(c, p, w);
    }
    forall r | r in c.readList
      ensures Version(r.slot.addr) <= VERSION_ASSET
    {
      ReadVersion(c, p, r);
    }
  }

  lemma ReadVersion(c: Certificate, p: Params, r: Read)
    requires DerivationMatches(c, p) && r in c.readList
    ensures Version(r.slot.addr) <= VERSION_ASSET
  {
    hide DerivationMatches, Debits, Credits;
    DerivesSomething(c, p);
    DeclaredRead(c, p, r);
    if c.program.Transfer? {
      MoveSlotsAreBalances(c.program.moves);
    }
  }

  /** A certificate is valid if and only if it is in canonical form, declares what it
      derives, pays no address it burns, carries the signatures it needs and no others,
      and has a covered deposit with a live refund address; rules V7 and V9 are never
      the ones that refuse it. */
  lemma ValidMeans(c: Certificate, p: Params)
    requires p.Valid()
    ensures StatelessValid(c, p) <==>
              && Canonical(c, p)
              && DerivationMatches(c, p)
              && PaysNoBurned(c)
              && Authorized(c, p)
              && DepositCovers(c, p) && c.deposit.refundTo.addr !in Burns(c)
              && SignaturesVerify(c, p)
    ensures StatelessFailure(c, p) != Some(V7) && StatelessFailure(c, p) != Some(V9)
  {
    hide Canonical, DerivationMatches, SelfConsistent, PaysNoBurned, Authorized, DepositOk, DepositCovers, Burns,
      NoProtocolWrites, KnownVersions, SignaturesVerify;
    if DerivationMatches(c, p) {
      ConsistentMeans(c, p);
      DepositMeans(c, p);
      NothingElseIsTouched(c, p);
    }
  }

  // ---------------------------------------------------- one form for one act

  /** Two valid retirements of the same addresses are the same program. */
  lemma OneRetirement(c: Certificate, c': Certificate, p: Params)
    requires DerivationMatches(c, p) && DerivationMatches(c', p) && c.program.Retire? && c'.program.Retire?
    requires forall a :: a in c.program.addrs <==> a in c'.program.addrs
    ensures c.program == c'.program
  {
    hide DerivationMatches;
    DerivesSomething(c, p);
    DerivesSomething(c', p);
    StepsAscend(c.program.addrs);
    StepsAscend(c'.program.addrs);
    OneAscending(c.program.addrs, c'.program.addrs);
  }
}
