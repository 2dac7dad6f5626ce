/** A counter that is 32 bits wide and wraps. */
module Clock {
  const TICK_MODULUS: nat := 0x1_0000_0000

  type Ticks = t: nat | t < TICK_MODULUS

  /** The tick counter, 32 bits wide, at a moment. */
  function Tick(now: nat): Ticks {
    now % TICK_MODULUS
  }

  /** (int32_t) (tick - deadline) >= 0 */
  predicate Reached(tick: Ticks, deadline: Ticks) {
    (tick + TICK_MODULUS - deadline) % TICK_MODULUS < TICK_MODULUS / 2
  }

  /** The wrapped comparison tells the truth when the two moments are less than half the range apart. */
  lemma ReachedExact(now: nat, due: nat)
    requires -(TICK_MODULUS / 2) <= now - due < TICK_MODULUS / 2
    ensures Reached(Tick(now), Tick(due)) <==> now >= due
  {
  }

  lemma {:induction false} WholeTurns(x: nat, turns: nat)
    ensures (x + turns * TICK_MODULUS) % TICK_MODULUS == x % TICK_MODULUS
  {
    if turns == 0 {
    } else {
      WholeTurns(x, turns - 1);
      OneTurn(x + (turns - 1) * TICK_MODULUS);
    }
  }

  lemma OneTurn(x: nat)
    ensures (x + TICK_MODULUS) % TICK_MODULUS == x % TICK_MODULUS
  {
  }

  lemma TickLater(now: nat, later: nat)
    ensures (Tick(now) + later) % TICK_MODULUS == Tick(now + later)
  {
    var turns := now / TICK_MODULUS;
    assert now + later == Tick(now) + later + turns * TICK_MODULUS;
    WholeTurns(Tick(now) + later, turns);
  }
}
