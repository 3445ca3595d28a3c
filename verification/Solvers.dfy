/** The work rule and the nonce solver (core/pow/pow.go).

    The solver keeps one buffer and overwrites four bytes of it per attempt; the
    verifier rebuilds the blob from the header each time.  They agree. */
module Solvers {
  import opened U256
  import opened Types
  import opened Bytes

  const NONCE_OFFSET: nat := 39
  const INPUT_SIZE: nat := 43

  type u32 = n: nat | n < TWO32

  /** The digests the rule is built from, uninterpreted: the work engine, the
      commitment's hash, the header hash behind the seed, and the key schedule. */
  datatype Digests = Digests(
    engine: (Hash, seq<byte>) -> Hash,
    commit: seq<byte> -> Hash,
    headerDigest: Header -> Hash,
    keyFor: u64 -> Hash)

  function NonceBytes(nonce: nat): (bs: seq<byte>)
    ensures |bs| == 4
  {
    [nonce % 256, nonce / 256 % 256, nonce / 65536 % 256, nonce / 16777216 % 256]
  }

  /** The header with the two searched fields filled in. */
  function WithNonce(h: Header, nonce: nat, digest: Hash): Header {
    h.(pow := h.pow.(nonce := nonce), powHash := digest)
  }

  function PowSeed(d: Digests, h: Header): Hash {
    d.headerDigest(WithNonce(h, 0, 0))
  }

  /** The blob: seed, seven reserved zeroes, little-endian nonce. */
  function PowInput(d: Digests, h: Header): (bs: seq<byte>)
    ensures |bs| == INPUT_SIZE
  {
    Encode(PowSeed(d, h), 32) + [0, 0, 0, 0, 0, 0, 0] + NonceBytes(h.pow.nonce)
  }

  datatype WorkError = TargetMissing | WorkTooLow | HashMismatch

  function Commitment(d: Digests, h: Header): Hash {
    d.commit(PowInput(d, h) + Encode(h.powHash, 32))
  }

  /** The digest read little-endian, as the rule reads it. */
  function WorkValue(commitment: Hash): nat {
    LittleEndian(Encode(commitment, 32))
  }

  function CheckCommitment(d: Digests, h: Header): Option<WorkError> {
    if h.height == 0 then None
    else if h.target == 0 then Some(TargetMissing)
    else if WorkValue(Commitment(d, h)) > h.target then Some(WorkTooLow)
    else None
  }

  function CheckWork(d: Digests, h: Header): Option<WorkError> {
    if CheckCommitment(d, h).Some? then CheckCommitment(d, h)
    else if h.height == 0 then None
    else if d.engine(d.keyFor(h.height), PowInput(d, h)) != h.powHash then Some(HashMismatch)
    else None
  }

  // ------------------------------------------------------ what the rule reads

  /** Byte i of a 32-byte digest, counted from its first byte. */
  function DigestByte(digest: Hash, i: nat): nat
    requires i < 32
  {
    PowerPositive(31 - i);
    digest / Power(31 - i) % 256
  }

  /** The first n bytes of a digest, the later the more significant. */
  function PositionSum(digest: Hash, n: nat): nat
    requires n <= 32
  {
    if n == 0 then 0 else PositionSum(digest, n - 1) + Product(DigestByte(digest, n - 1), Power(n - 1))
  }

  lemma {:induction false} PrefixSum(digest: Hash, bs: seq<byte>, n: nat)
    requires n <= 32 == |bs| && forall i :: 0 <= i < 32 ==> bs[i] == DigestByte(digest, i)
    ensures LittleEndian(bs[..n]) == PositionSum(digest, n)
  {
    if n > 0 {
      PrefixSum(digest, bs, n - 1);
      assert bs[..n] == bs[..n - 1] + [bs[n - 1]];
      LittleConcat(bs[..n - 1], bs[n - 1]);
    }
  }

  /** The work value is the digest's bytes by position, the last byte on top. */
  lemma WorkByPosition(commitment: Hash)
    ensures WorkValue(commitment) == PositionSum(commitment, 32)
  {
    hide Encode, LittleEndian, PositionSum, DigestByte;
    var bs := Encode(commitment, 32);
    forall i | 0 <= i < 32
      ensures bs[i] == DigestByte(commitment, i)
    {
      ByteOf(commitment, i);
    }
    PrefixSum(commitment, bs, 32);
    assert bs[..32] == bs;
  }

  lemma ByteOf(digest: Hash, i: nat)
    requires i < 32
    ensures Encode(digest, 32)[i] == DigestByte(digest, i)
  {
    hide Encode;
    EncodeAt(digest, 32, i);
  }

  /** The blob by position: the seed, which neither searched field enters, seven
      zero bytes, and the nonce little-endian. */
  lemma BlobLayout(d: Digests, h: Header)
    requires h.pow.nonce < TWO32
    ensures
      var blob := PowInput(d, h);
      && BigEndian(blob[..32]) == PowSeed(d, h)
      && (forall i :: 32 <= i < NONCE_OFFSET ==> blob[i] == 0)
      && LittleEndian(blob[NONCE_OFFSET..]) == h.pow.nonce
    ensures forall nonce: nat, digest: Hash :: PowSeed(d, WithNonce(h, nonce, digest)) == PowSeed(d, h)
  {
    var blob := PowInput(d, h);
    var seed := Encode(PowSeed(d, h), 32);
    assert blob[..32] == seed && blob[NONCE_OFFSET..] == NonceBytes(h.pow.nonce);
    PowerIs();
    hide Encode, BigEndian, LittleEndian, PowSeed;
    EncodeRoundTrip(PowSeed(d, h), 32);
    NonceValue(h.pow.nonce);
    SeedIgnoresSearch(d, h);
  }

  lemma SeedIgnoresSearch(d: Digests, h: Header)
    ensures forall nonce: nat, digest: Hash :: PowSeed(d, WithNonce(h, nonce, digest)) == PowSeed(d, h)
  {
    assert forall nonce: nat, digest: Hash :: WithNonce(WithNonce(h, nonce, digest), 0, 0) == WithNonce(h, 0, 0);
  }

  lemma NonceValue(nonce: nat)
    requires nonce < TWO32
    ensures LittleEndian(NonceBytes(nonce)) == nonce
  {
    FourBytes(nonce);
    var bs := NonceBytes(nonce);
    var b1: nat, b2: nat, b3: nat := bs[1], bs[2], bs[3];
    assert bs[1..][1..][1..][1..] == [];
    assert LittleEndian(bs[1..][1..][1..]) == b3;
    assert LittleEndian(bs[1..][1..]) == b2 + 256 * b3;
    assert LittleEndian(bs[1..]) == b1 + 256 * (b2 + 256 * b3);
  }

  lemma FourBytes(n: nat)
    requires n < TWO32
    ensures n == n % 256 + 256 * (n / 256 % 256 + 256 * (n / 65536 % 256 + 256 * (n / 16777216 % 256)))
  {
    var a, b, c := n / 256, n / 65536, n / 16777216;
    assert b == a / 256 && c == b / 256 && c < 256;
  }

  /** A header above genesis does its work if and only if its target is not zero, the
      committed digest, read by position, is at most the target, and the digest it
      carries is the engine's on its own blob. */
  lemma WorkMeans(d: Digests, h: Header)
    ensures CheckWork(d, h).None? <==>
              || h.height == 0
              || (&& h.target != 0
                  && PositionSum(d.commit(PowInput(d, h) + Encode(h.powHash, 32)), 32) <= h.target
                  && h.powHash == d.engine(d.keyFor(h.height), PowInput(d, h)))
  {
    hide WorkValue, PositionSum, PowInput, Encode;
    WorkByPosition(Commitment(d, h));
  }

  /** Everything before the nonce is the same for every attempt. */
  lemma BlobOfAttempt(d: Digests, h: Header, nonce: nat, digest: Hash)
    ensures PowInput(d, WithNonce(h, nonce, digest)) == PowInput(d, h)[..NONCE_OFFSET] + NonceBytes(nonce)
  {
    assert WithNonce(WithNonce(h, nonce, digest), 0, 0) == WithNonce(h, 0, 0);
  }

  function AttemptDigest(d: Digests, h: Header, nonce: nat): Hash {
    d.engine(d.keyFor(h.height), PowInput(d, WithNonce(h, nonce, 0)))
  }

  /** What a solver accepts of an attempt: only the commitment is tested, because
      the digest it tests is its own. */
  predicate Wins(d: Digests, h: Header, nonce: nat) {
    WorkValue(Commitment(d, WithNonce(h, nonce, AttemptDigest(d, h, nonce)))) <= h.target
  }

  /** Agreement: a winning attempt carries the one digest the verifier accepts
      for that nonce, and a losing attempt has none. */
  lemma SolverAgrees(d: Digests, h: Header, nonce: nat, digest: Hash)
    requires h.height != 0 && h.target != 0
    ensures CheckWork(d, WithNonce(h, nonce, digest)).None? <==>
              Wins(d, h, nonce) && digest == AttemptDigest(d, h, nonce)
  {
    BlobOfAttempt(d, h, nonce, digest);
    BlobOfAttempt(d, h, nonce, 0);
  }

  /** Where they would differ: the two cases Solve answers by asking the rule. */
  lemma SolverNeedsATarget(d: Digests, h: Header, nonce: nat, digest: Hash)
    ensures h.height == 0 ==> CheckWork(d, WithNonce(h, nonce, digest)).None?
    ensures h.height != 0 && h.target == 0 ==> CheckWork(d, WithNonce(h, nonce, digest)) == Some(TargetMissing)
  {
  }

  class Solver {
    const digests: Digests
    const key: Hash
    const target: u256
    const input: array<byte>
    ghost const candidate: Header

    /** Only the nonce field of the buffer may differ from the candidate's blob. */
    ghost predicate Valid()
      reads this, input
    {
      && input.Length == INPUT_SIZE
      && input[..NONCE_OFFSET] == PowInput(digests, candidate)[..NONCE_OFFSET]
      && key == digests.keyFor(candidate.height)
      && target == candidate.target
    }

    constructor (d: Digests, h: Header)
      ensures Valid() && fresh(input) && digests == d && candidate == h
    {
      var blob := PowInput(d, h);
      digests, key, target, candidate := d, d.keyFor(h.height), h.target, h;
      input := new byte[INPUT_SIZE](i requires 0 <= i < INPUT_SIZE => PowInput(d, h)[i]);
      new;
      assert input[..] == blob;
    }

    constructor Copying(o: Solver)
      requires o.Valid()
      ensures Valid() && fresh(input) && digests == o.digests && candidate == o.candidate && input[..] == o.input[..]
    {
      var blob := o.input[..];
      digests, key, target, candidate := o.digests, o.key, o.target, o.candidate;
      input := new byte[INPUT_SIZE](i requires 0 <= i < |blob| => blob[i]);
      new;
      assert input[..] == blob;
      assert input[..NONCE_OFFSET] == blob[..NONCE_OFFSET];
    }

    /** One attempt: four bytes overwritten, one digest, one comparison. */
    method TryHash(nonce: u32) returns (digest: Hash, ok: bool)
      requires Valid()
      modifies input
      ensures Valid()
      ensures digest == AttemptDigest(digests, candidate, nonce)
      ensures ok == Wins(digests, candidate, nonce)
    {
      var bytes := NonceBytes(nonce);
      for i := 0 to 4
        invariant input[..NONCE_OFFSET] == PowInput(digests, candidate)[..NONCE_OFFSET]
        invariant forall k :: 0 <= k < i ==> input[NONCE_OFFSET + k] == bytes[k]
      {
        input[NONCE_OFFSET + i] := bytes[i];
      }
      BlobOfAttempt(digests, candidate, nonce, 0);
      assert input[..] == input[..NONCE_OFFSET] + bytes;
      digest := digests.engine(key, input[..]);
      BlobOfAttempt(digests, candidate, nonce, digest);
      var commitment := digests.commit(input[..] + Encode(digest, 32));
      ok := WorkValue(commitment) <= target;
    }

    /** An independent worker over the same candidate. */
    method Clone() returns (s: Solver)
      requires Valid()
      ensures fresh(s) && fresh(s.input) && s.Valid()
      ensures s.digests == digests && s.candidate == candidate && s.input[..] == input[..]
    {
      s := new Solver.Copying(this);
    }
  }

  /** The header a caller is trying to seal. */
  class Candidate {
    var header: Header

    constructor (h: Header)
      ensures header == h
    {
      header := h;
    }
  }

  /** Searches the nonces below the limit, at most once each.  Success leaves a
      header the rule accepts; failure leaves the header alone and means no nonce
      searched can be completed by any digest at all. */
  method Solve(d: Digests, c: Candidate, limit: u64) returns (found: bool)
    modifies c
    ensures found ==> CheckWork(d, c.header).None?
    ensures found ==> exists nonce, digest :: c.header == WithNonce(old(c.header), nonce, digest)
    ensures !found ==> c.header == old(c.header)
    ensures !found && c.header.height != 0 && c.header.target != 0 ==>
              forall nonce: nat, digest: Hash :: nonce < Min(limit, TWO32) ==>
                CheckWork(d, WithNonce(c.header, nonce, digest)).Some?
    ensures c.header.height == 0 ==> found
  {
    hide CheckWork, Wins, AttemptDigest;
    var h := c.header;
    if h.height == 0 || h.target == 0 {
      assert h == WithNonce(h, h.pow.nonce, h.powHash);
      SolverNeedsATarget(d, h, h.pow.nonce, h.powHash);
      return CheckWork(d, h).None?;
    }
    var s := new Solver(d, h);
    var bound := if limit > TWO32 then TWO32 else limit;
    for i := 0 to bound
      invariant s.Valid() && s.digests == d && s.candidate == h && fresh(s) && fresh(s.input) && c.header == h
      invariant forall n :: 0 <= n < i ==> !Wins(d, h, n)
    {
      var digest, ok := s.TryHash(i);
      if ok {
        SolverAgrees(d, h, i, digest);
        c.header := WithNonce(h, i, digest);
        return true;
      }
    }
    forall nonce: nat, digest: Hash | nonce < bound
      ensures CheckWork(d, WithNonce(h, nonce, digest)).Some?
    {
      SolverAgrees(d, h, nonce, digest);
    }
    return false;
  }

  // --------------------------------------------------------- the key schedule

  lemma QuotientStep(x: nat, d: nat)
    requires x > 0 && d > 0
    ensures x / d == (x - 1) / d + if x % d == 0 then 1 else 0
  {
    var q, r := (x - 1) / d, (x - 1) % d;
    assert x - 1 == d * q + r;
    if r == d - 1 {
      assert x == d * (q + 1) + 0;
      ResidueUnique(x, d, q + 1, 0);
      DivCancels(q + 1, d);
    } else {
      ResidueUnique(x, d, q, r + 1);
      assert d * (x / d) == d * q;
      MulCancels(d, x / d, q + 1);
      MulCancels(d, q, x / d + 1);
    }
  }

  /** The work key changes exactly at the interval boundaries shifted by the lag,
      by one epoch at a time, and never below the first of them. */
  lemma RekeysOncePerInterval(p: Params, h: u64)
    requires p.Valid() && h > 0
    ensures p.SeedEpochFor(h) == p.SeedEpochFor(h - 1) +
              if h >= p.keyInterval + p.keyLag && (h - p.keyLag) % p.keyInterval == 0 then 1 else 0
  {
    var i := p.keyInterval;
    if h >= i + p.keyLag {
      QuotientStep(h - p.keyLag, i);
      if h == i + p.keyLag {
        ResidueUnique(i, i, 1, 0);
        DivCancels(1, i);
      }
    }
  }
}
