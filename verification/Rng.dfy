/**
 The entropy port (packages/simulation/src/rng.ts) over an arbitrary stream of unsigned
 32-bit draws: the lane arithmetic behind the stream is not modelled.
 */
module Rng {

  const TWO_POW_32: nat := 0x1_0000_0000

  type Draws = nat -> nat

  ghost predicate Unsigned32(draws: Draws)
  {
    forall i :: draws(i) < TWO_POW_32
  }

  /** The float made from one draw. */
  function FloatAt(draws: Draws, i: nat): real
  {
    draws(i) as real / TWO_POW_32 as real
  }

  lemma FloatInUnit(draws: Draws, i: nat)
    requires Unsigned32(draws)
    ensures 0.0 <= FloatAt(draws, i) < 1.0
  {
    assert draws(i) < TWO_POW_32;
    var n, d := draws(i) as real, TWO_POW_32 as real;
    assert 0.0 <= n < d;
  }

  /** Draws at or above this bound are rejected: the largest multiple of `span` within 32 bits. */
  function Limit(span: nat): nat
    requires span >= 1
  {
    (TWO_POW_32 / span) * span
  }

  /** The first draw from position `from` on that is accepted. */
  ghost predicate FirstAccepted(draws: Draws, from: nat, span: nat, at: nat)
    requires span >= 1
  {
    from <= at && draws(at) < Limit(span) && forall i :: from <= i < at ==> draws(i) >= Limit(span)
  }

  class SeededRng {
    const draws: Draws
    var cursor: nat

    constructor (draws: Draws)
      ensures this.draws == draws && cursor == 0
    {
      this.draws := draws;
      cursor := 0;
    }

    method NextUint32() returns (r: nat)
      modifies this
      ensures r == draws(old(cursor)) && cursor == old(cursor) + 1
    {
      r := draws(cursor);
      cursor := cursor + 1;
    }

    method NextFloat() returns (r: real)
      modifies this
      ensures r == FloatAt(draws, old(cursor)) && cursor == old(cursor) + 1
    {
      var draw := NextUint32();
      r := draw as real / TWO_POW_32 as real;
    }

    /**
     Unbiased integer below `maxExclusive`. The source loops until a draw is accepted, so a
     positive span needs the stream to hold one.
     */
    method NextInt(maxExclusive: real) returns (r: nat)
      requires maxExclusive.Floor >= 1 ==> exists i :: i >= cursor && draws(i) < Limit(maxExclusive.Floor)
      modifies this
      ensures maxExclusive.Floor < 1 ==> r == 0 && cursor == old(cursor)
      ensures maxExclusive.Floor >= 1 ==>
                && cursor > old(cursor)
                && FirstAccepted(draws, old(cursor), maxExclusive.Floor, cursor - 1)
                && r == draws(cursor - 1) % maxExclusive.Floor
                && r < maxExclusive.Floor
    {
      if maxExclusive <= 0.0 {
        return 0;
      }
      var span := maxExclusive.Floor;
      if span <= 0 {
        return 0;
      }
      ghost var accepted :| accepted >= cursor && draws(accepted) < Limit(span);
      var limit := Limit(span);
      var draw := NextUint32();
      while draw >= limit
        invariant old(cursor) < cursor && draw == draws(cursor - 1)
        invariant cursor - 1 <= accepted
        invariant forall i :: old(cursor) <= i < cursor - 1 ==> draws(i) >= limit
        decreases accepted - cursor
      {
        assert cursor - 1 != accepted;
        draw := NextUint32();
      }
      return draw % span;
    }
  }

  /** How many of the numbers below `n` leave remainder `r`. */
  ghost function CountResidue(n: nat, span: nat, r: nat): nat
    requires span >= 1
  {
    if n == 0 then 0 else CountResidue(n - 1, span, r) + if (n - 1) % span == r then 1 else 0
  }

  lemma {:induction false} OneBlock(base: nat, n: nat, span: nat, r: nat)
    requires span >= 1 && r < span && n <= span && base % span == 0
    ensures CountResidue(base + n, span, r) == CountResidue(base, span, r) + if r < n then 1 else 0
  {
    if n > 0 {
      OneBlock(base, n - 1, span, r);
      BlockResidue(base, n - 1, span);
    }
  }

  lemma BlockResidue(base: nat, k: nat, span: nat)
    requires span >= 1 && k < span && base % span == 0
    ensures (base + k) % span == k
  {
    var q := base / span;
    assert base + k == q * span + k;
    QuotientUnique(q, k, span);
  }

  lemma QuotientUnique(q: nat, k: nat, span: nat)
    requires span >= 1 && k < span
    ensures (q * span + k) % span == k && (q * span + k) / span == q
  {
    var n := q * span + k;
    var a, b := n / span, n % span;
    assert n == a * span + b;
    var gap := a - q;
    assert gap * span == k - b;
    if gap >= 1 {
      MultipleAtLeast(gap, span);
    }
  }

  lemma MultipleAtLeast(q: nat, span: nat)
    requires q >= 1
    ensures q * span >= span
  {
    assert (q - 1) * span >= 0;
  }

  lemma {:induction false} ResiduesOfBlocks(q: nat, span: nat, r: nat)
    requires span >= 1 && r < span
    ensures CountResidue(q * span, span, r) == q
  {
    if q > 0 {
      ResiduesOfBlocks(q - 1, span, r);
      QuotientUnique(q - 1, 0, span);
      OneBlock((q - 1) * span, span, span, r);
      assert (q - 1) * span + span == q * span;
    }
  }

  /** A draw is accepted. */
  predicate Accepts(span: nat, draw: nat)
    requires span >= 1
  {
    draw < Limit(span)
  }

  /**
   `NextInt` is exactly unbiased: among the accepted 32-bit draws every result below the
   span has the same number of draws, and more than half of all draws are accepted.
   */
  lemma NextIntIsUnbiased(span: nat, r: nat)
    requires 1 <= span <= TWO_POW_32 && r < span
    ensures Limit(span) <= TWO_POW_32
    ensures CountResidue(Limit(span), span, r) == TWO_POW_32 / span
    ensures 2 * Limit(span) > TWO_POW_32
  {
    LimitBounds(TWO_POW_32, span);
    ResiduesOfBlocks(TWO_POW_32 / span, span, r);
  }

  lemma LimitBounds(n: nat, span: nat)
    requires 1 <= span <= n
    ensures span <= (n / span) * span <= n
    ensures 2 * ((n / span) * span) > n
  {
    var q := n / span;
    assert n == q * span + n % span;
    if q > 0 {
      MultipleAtLeast(q, span);
    }
  }

  /** Some 32-bit draw is accepted exactly when the span fits in 32 bits: beyond that the loop cannot end. */
  lemma AcceptsSomethingIff(span: nat)
    requires span >= 1
    ensures (exists d: nat :: d < TWO_POW_32 && Accepts(span, d)) <==> span <= TWO_POW_32
  {
    if span <= TWO_POW_32 {
      LimitBounds(TWO_POW_32, span);
      assert Accepts(span, 0);
    } else {
      QuotientUnique(0, TWO_POW_32, span);
      assert Limit(span) == 0;
    }
  }

  /** One more than 32 bits can count: the bound is then zero and every draw is rejected. */
  lemma OversizedSpanRejectsAll(draw: nat)
    requires draw < TWO_POW_32
    ensures Limit(TWO_POW_32 + 1) == 0 && !Accepts(TWO_POW_32 + 1, draw)
  {
    QuotientUnique(0, TWO_POW_32, TWO_POW_32 + 1);
  }
}
