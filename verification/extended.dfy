/** Integers extended with the two infinities the search uses as its initial
    best values and as the root window (`-math.inf`, `math.inf`). */
module Extended {
  import opened Common

  datatype Ext = NegInf | Fin(n: int) | PosInf

  /** Strict order: NegInf < every finite value < PosInf. */
  predicate Lt(a: Ext, b: Ext)
  {
    match a
    case NegInf => !b.NegInf?
    case Fin(x) => b.PosInf? || (b.Fin? && x < b.n)
    case PosInf => false
  }

  predicate Le(a: Ext, b: Ext)
  {
    a == b || Lt(a, b)
  }

  /** `max(a, b)` as used for raising alpha. */
  function Max(a: Ext, b: Ext): (r: Ext)
    ensures Le(a, r) && Le(b, r)
    ensures r == a || r == b
  {
    if Lt(a, b) then b else a
  }

  /** `min(a, b)` as used for lowering beta. */
  function Min(a: Ext, b: Ext): (r: Ext)
    ensures Le(r, a) && Le(r, b)
    ensures r == a || r == b
  {
    if Lt(b, a) then b else a
  }

  /** Lt is a strict total order. */
  lemma LtTotal(a: Ext, b: Ext)
    ensures !Lt(a, a)
    ensures Lt(a, b) ==> !Lt(b, a)
    ensures a == b || Lt(a, b) || Lt(b, a)
  {
  }

  lemma LtTrans(a: Ext, b: Ext, c: Ext)
    requires Lt(a, b) && Lt(b, c)
    ensures Lt(a, c)
  {
  }

  lemma LeTrans(a: Ext, b: Ext, c: Ext)
    requires Le(a, b) && Le(b, c)
    ensures Le(a, c)
  {
  }

  /** The value a search node starts from before any move is scored:
      `-math.inf` for the maximizing Player1, `math.inf` for Player2. */
  function Start(p: Player): (r: Ext)
    ensures !r.Fin?
  {
    if p == Player1 then NegInf else PosInf
  }

  /** `x` is strictly better than `y` for `p`: larger for Player1, smaller
      for Player2. */
  predicate Better(p: Player, x: Ext, y: Ext)
  {
    if p == Player1 then Lt(y, x) else Lt(x, y)
  }

  /** Every finite value beats the starting value, and nothing beats
      itself. Better is transitive. */
  lemma BetterFacts(p: Player, x: Ext, y: Ext, z: Ext)
    ensures x.Fin? ==> Better(p, x, Start(p))
    ensures !Better(p, x, x)
    ensures Better(p, x, y) ==> !Better(p, y, x)
    ensures Better(p, x, y) && Better(p, y, z) ==> Better(p, x, z)
    ensures Better(p, x, y) && !Better(p, z, y) ==> Better(p, x, z)
    ensures !Better(p, x, y) && !Better(p, y, z) ==> !Better(p, x, z)
  {
  }

  /** The fail-soft window property of a searched value `v` against the true
      value `m` for the window (`lo`, `hi`): at or below `lo` it bounds `m`
      from above, at or above `hi` from below, and strictly inside it is exact. */
  predicate FailSoft(lo: Ext, hi: Ext, v: Ext, m: Ext)
  {
    && (Le(v, lo) ==> Le(m, v))
    && (Le(hi, v) ==> Le(v, m))
    && (Lt(lo, v) && Lt(v, hi) ==> v == m)
  }

  /** A value at or above the window's upper end that is a lower bound of the
      true value satisfies the fail-soft property. */
  lemma FailSoftHigh(lo: Ext, hi: Ext, v: Ext, m: Ext)
    requires Lt(lo, hi) && Le(hi, v) && Le(v, m)
    ensures FailSoft(lo, hi, v, m)
  {
  }

  /** Mirror of `FailSoftHigh` for a value at or below the lower end. */
  lemma FailSoftLow(lo: Ext, hi: Ext, v: Ext, m: Ext)
    requires Lt(lo, hi) && Le(v, lo) && Le(m, v)
    ensures FailSoft(lo, hi, v, m)
  {
  }
}
