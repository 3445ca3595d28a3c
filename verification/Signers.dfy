/** Who signs a certificate (core/validity V1, V2 and V4): as long as no two of the
    keys in question share an address, the content of a certificate determines its
    signers, so its signatures cannot be added to, dropped or reordered. */
module Signers {
  import opened U256
  import opened Types
  import opened Validity
  import opened Authority

  /** No two of these keys have one address, of any version. */
  ghost predicate NoSharedAddress(p: Params, ks: seq<PubKey>) {
    forall k, m, a :: k in ks && m in ks && Owns(p, k, a) && Owns(p, m, a) ==> k == m
  }

  function Keys(sigs: seq<Sig>): (ks: seq<PubKey>)
    ensures |ks| == |sigs|
    ensures forall i :: 0 <= i < |ks| ==> ks[i] == sigs[i].pubKey
  {
    seq(|sigs|, i requires 0 <= i < |sigs| => sigs[i].pubKey)
  }

  /** This key has to sign: some required address is its own, or it is the minter. */
  ghost predicate MustSign(c: Certificate, p: Params, k: PubKey) {
    || (c.program.Mint? && k == c.program.minter)
    || exists a :: a in RequiredAddresses(c) && Owns(p, k, a)
  }

  ghost predicate Owns(p: Params, k: PubKey, a: Address) {
    Version(a) < 256 && p.AddressFromPubKey(Version(a), k) == a
  }

  lemma ValidIsCanonical(c: Certificate, p: Params)
    requires p.Valid() && StatelessValid(c, p)
    ensures Canonical(c, p)
  {
    hide Canonical, DerivationMatches, SelfConsistent, DepositOk, KnownVersions, NoProtocolWrites, Authorized,
      SignaturesVerify;
  }

  /** Every signer of a valid certificate had to sign. */
  lemma SignersMustSign(c: Certificate, p: Params, k: PubKey)
    requires p.Valid() && StatelessValid(c, p) && k in Keys(c.sigs)
    ensures MustSign(c, p, k)
  {
    hide StatelessValid, RequiredAddresses, Params.AddressFromPubKey;
    ValidIsSigned(c, p);
    var i :| 0 <= i < |c.sigs| && c.sigs[i].pubKey == k;
    assert c.sigs[i] in c.sigs;
    if !(c.program.Mint? && k == c.program.minter) {
      var a :| a in RequiredAddresses(c) && SignsFor(c, p, c.sigs[i], a);
      assert Owns(p, k, a);
    }
  }

  /** Every key that has to sign does, or one that shares its address. */
  lemma MustSignersSign(c: Certificate, p: Params, k: PubKey, ks: seq<PubKey>)
    requires p.Valid() && StatelessValid(c, p) && MustSign(c, p, k)
    requires k in ks && (forall m :: m in Keys(c.sigs) ==> m in ks) && NoSharedAddress(p, ks)
    ensures k in Keys(c.sigs)
  {
    hide *;
    if c.program.Mint? && k == c.program.minter {
      MinterSigns(c, p);
    } else {
      var a := OwnedRequirement(c, p, k);
      var m := OwnerSigns(c, p, a);
      OneOwner(p, ks, k, m, a);
    }
  }

  lemma MinterSigns(c: Certificate, p: Params)
    requires p.Valid() && StatelessValid(c, p) && c.program.Mint?
    ensures c.program.minter in Keys(c.sigs)
  {
    hide StatelessValid, RequiredAddresses, SignsFor;
    ValidIsSigned(c, p);
    var s :| s in c.sigs && s.pubKey == c.program.minter;
    HasKey(c.sigs, s);
  }

  lemma OwnedRequirement(c: Certificate, p: Params, k: PubKey) returns (a: Address)
    requires MustSign(c, p, k) && !(c.program.Mint? && k == c.program.minter)
    ensures a in RequiredAddresses(c) && Owns(p, k, a)
  {
    hide RequiredAddresses, Owns;
    a :| a in RequiredAddresses(c) && Owns(p, k, a);
  }

  lemma OwnerSigns(c: Certificate, p: Params, a: Address) returns (m: PubKey)
    requires p.Valid() && StatelessValid(c, p) && a in RequiredAddresses(c)
    ensures m in Keys(c.sigs) && Owns(p, m, a)
  {
    hide StatelessValid, RequiredAddresses, Params.AddressFromPubKey;
    ValidIsSigned(c, p);
    var s :| s in c.sigs && SignsFor(c, p, s, a);
    HasKey(c.sigs, s);
    m := s.pubKey;
  }

  lemma OneOwner(p: Params, ks: seq<PubKey>, k: PubKey, m: PubKey, a: Address)
    requires NoSharedAddress(p, ks) && k in ks && m in ks && Owns(p, k, a) && Owns(p, m, a)
    ensures k == m
  {
  }

  lemma HasKey(sigs: seq<Sig>, s: Sig)
    requires s in sigs
    ensures s.pubKey in Keys(sigs)
  {
    var i :| 0 <= i < |sigs| && sigs[i] == s;
    assert Keys(sigs)[i] == s.pubKey;
  }

  ghost predicate Ascending(ks: seq<PubKey>) {
    forall i, j :: 0 <= i < j < |ks| ==> ks[i] < ks[j]
  }

  lemma {:induction false} StepsAscend(ks: seq<PubKey>)
    requires forall i :: 0 < i < |ks| ==> ks[i - 1] < ks[i]
    ensures Ascending(ks)
  {
    if |ks| > 1 {
      var n := |ks| - 1;
      StepsAscend(ks[..n]);
      forall i, j | 0 <= i < j < |ks|
        ensures ks[i] < ks[j]
      {
        assert i < n - 1 ==> ks[..n][i] < ks[..n][n - 1];
        assert j < n ==> ks[..n][i] < ks[..n][j];
      }
    }
  }

  lemma AscendingWithoutLast(a: seq<PubKey>)
    requires a != [] && Ascending(a)
    ensures Ascending(a[..|a| - 1])
    ensures forall k :: k in a[..|a| - 1] <==> k in a && k != a[|a| - 1]
  {
    var n := |a| - 1;
    assert a == a[..n] + [a[n]];
    assert forall i :: 0 <= i < n ==> a[..n][i] == a[i];
  }

  lemma HasSome(b: seq<PubKey>)
    ensures b == [] || exists k :: k in b
  {
    if b != [] {
      assert b[0] in b;
    }
  }

  /** One set has one ascending arrangement. */
  lemma {:induction false} OneAscending(a: seq<PubKey>, b: seq<PubKey>)
    requires Ascending(a) && Ascending(b) && forall k :: k in a <==> k in b
    ensures a == b
    decreases |a|
  {
    if a == [] {
      HasSome(b);
    } else {
      var n, m := |a| - 1, |b| - 1;
      assert a[n] in a;
      assert a[n] in b && b[m] in b && b[m] in a;
      assert a[n] == b[m];
      AscendingWithoutLast(a);
      AscendingWithoutLast(b);
      forall k: PubKey
        ensures k in a[..n] <==> k in b[..m]
      {
        assert k in a <==> k in b;
      }
      OneAscending(a[..n], b[..m]);
      assert a == a[..n] + [a[n]] && b == b[..m] + [b[m]];
    }
  }

  /** Two valid certificates that differ in nothing but their signatures have one id
      and the same signers, in the same order. */
  lemma SignersAreDetermined(c: Certificate, c': Certificate, p: Params)
    requires p.Valid() && StatelessValid(c, p) && StatelessValid(c', p)
    requires c'.(sigs := c.sigs) == c && NoSharedAddress(p, Keys(c.sigs) + Keys(c'.sigs))
    ensures p.CertId(c') == p.CertId(c) && Keys(c'.sigs) == Keys(c.sigs)
  {
    hide StatelessValid, NoSharedAddress, MustSign, Canonical;
    assert c'.(sigs := []) == c.(sigs := []);
    var ks := Keys(c.sigs) + Keys(c'.sigs);
    forall k | k in ks
      ensures k in Keys(c.sigs) && k in Keys(c'.sigs)
    {
      SameContent(c, c', p, k);
      if k in Keys(c.sigs) {
        SignersMustSign(c, p, k);
      } else {
        SignersMustSign(c', p, k);
      }
      MustSignersSign(c, p, k, ks);
      MustSignersSign(c', p, k, ks);
    }
    ValidIsCanonical(c, p);
    ValidIsCanonical(c', p);
    SortedKeys(c, p);
    SortedKeys(c', p);
    OneAscending(Keys(c.sigs), Keys(c'.sigs));
  }

  lemma SameContent(c: Certificate, c': Certificate, p: Params, k: PubKey)
    requires c'.(sigs := c.sigs) == c
    ensures MustSign(c, p, k) <==> MustSign(c', p, k)
  {
    assert c'.deposit == c.deposit && c'.writes == c.writes && c'.program == c.program;
    assert RequiredAddresses(c) == RequiredAddresses(c');
  }

  lemma SortedKeys(c: Certificate, p: Params)
    requires Canonical(c, p)
    ensures Ascending(Keys(c.sigs))
  {
    StepsAscend(Keys(c.sigs));
  }

  // ------------------------------------------------------------------- sizes

  /** A valid certificate is no longer than the parameters allow. */
  lemma ValidIsBounded(c: Certificate, p: Params)
    requires p.Valid() && StatelessValid(c, p)
    ensures |c.sigs| > 0
    ensures CertSize(c) <= 333 + Max(160, Max(128 * p.maxMoves, 32 * p.maxRetire)) + 97 * p.maxReads + 97 * p.maxWrites
                           + 96 * p.maxSigs
  {
    hide StatelessValid;
    ValidIsCanonical(c, p);
  }
}
