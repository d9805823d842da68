/** The block gas-limit controller (CalcGasLimit in core/block_validator.go). */
module GasLimit {

  const BOUND_DIVISOR: nat := 1024
  const TWO_TO_THE_64: nat := 0x1_0000_0000_0000_0000

  /** Limits that the arithmetic below handles without wrapping around. */
  const MAX_LIMIT: nat := 0x7FFF_FFFF_FFFF_FFFF

  /** Unsigned 64-bit wrap-around. */
  function Wrap(x: int): nat {
    x % TWO_TO_THE_64
  }

  function Min(a: nat, b: nat): nat {
    if a < b then a else b
  }

  /** The gas limit of the block after one with limit `limit` and usage `used`. */
  function CalcGasLimit(limit: nat, used: nat, gasFloor: nat, gasCeil: nat): nat {
    var floor := Min(gasFloor, gasCeil);
    var contrib := Wrap(used + used / 2) / BOUND_DIVISOR;
    var decay := Wrap(limit / BOUND_DIVISOR - 1);
    var next := Wrap(limit - decay + contrib);
    if next < floor then
      Min(Wrap(limit + decay), floor)
    else if next > gasCeil then
      (if Wrap(limit - decay) < gasCeil then gasCeil else Wrap(limit - decay))
    else next
  }

  predicate InRange(limit: nat, gasFloor: nat, gasCeil: nat) {
    Min(gasFloor, gasCeil) <= limit <= gasCeil
  }

  /** How far `limit` is from the range. */
  function Distance(limit: nat, gasFloor: nat, gasCeil: nat): nat {
    if limit < Min(gasFloor, gasCeil) then Min(gasFloor, gasCeil) - limit
    else if limit > gasCeil then limit - gasCeil
    else 0
  }

  /** Without wrap-around the next limit is the old one, less its decay, plus the contribution. */
  lemma NoWrap(limit: nat, used: nat)
    requires BOUND_DIVISOR <= limit <= MAX_LIMIT && used <= limit
    ensures Wrap(limit / BOUND_DIVISOR - 1) == limit / BOUND_DIVISOR - 1
    ensures var decay := limit / BOUND_DIVISOR - 1;
            var contrib := (used + used / 2) / BOUND_DIVISOR;
            && Wrap(used + used / 2) == used + used / 2 && Wrap(limit - decay) == limit - decay
            && Wrap(limit + decay) == limit + decay && Wrap(limit - decay + contrib) == limit - decay + contrib
            && 0 <= decay < limit && contrib <= limit
  {
    assert used + used / 2 <= 2 * limit;
  }

  /** Below the bound divisor the decay wraps around to minus one: what should fall rises, and what should rise falls. */
  lemma Wrapped(limit: nat, used: nat, gasFloor: nat, gasCeil: nat)
    requires limit < BOUND_DIVISOR && used <= limit && gasCeil <= MAX_LIMIT
    ensures var next, floor := CalcGasLimit(limit, used, gasFloor, gasCeil), Min(gasFloor, gasCeil);
            var plain := limit + 1 + (used + used / 2) / BOUND_DIVISOR;
            && limit < plain <= limit + 2 && (used == 0 ==> plain == limit + 1)
            && next == if plain < floor then (if limit == 0 then floor else limit - 1)
                       else if plain > gasCeil then (if limit + 1 < gasCeil then gasCeil else limit + 1)
                       else plain
  {
    assert Wrap(limit / BOUND_DIVISOR - 1) == TWO_TO_THE_64 - 1;
    var contrib := (used + used / 2) / BOUND_DIVISOR;
    assert contrib <= 1;
    WrapBy(limit + 1 + contrib, -1);
    WrapBy(limit + 1, -1);
    if limit > 0 {
      WrapBy(limit - 1, 1);
    }
  }

  lemma WrapBy(x: int, turns: int)
    requires 0 <= x < TWO_TO_THE_64
    ensures Wrap(x + turns * TWO_TO_THE_64) == x
  {
  }

  /** Once in the range the limit stays there, whatever the blocks use, if the ceiling is not below the bound divisor. */
  lemma Absorbing(limit: nat, used: nat, gasFloor: nat, gasCeil: nat)
    requires used <= limit <= MAX_LIMIT && BOUND_DIVISOR <= gasCeil <= MAX_LIMIT && InRange(limit, gasFloor, gasCeil)
    ensures InRange(CalcGasLimit(limit, used, gasFloor, gasCeil), gasFloor, gasCeil)
  {
    if limit < BOUND_DIVISOR {
      Wrapped(limit, used, gasFloor, gasCeil);
    } else {
      NoWrap(limit, used);
    }
  }

  /** With a lower ceiling the range is left at the ceiling. */
  lemma AbsorbingIff(gasFloor: nat, gasCeil: nat)
    requires gasCeil <= MAX_LIMIT
    ensures gasCeil >= BOUND_DIVISOR <==>
            forall limit: nat, used: nat :: used <= limit && InRange(limit, gasFloor, gasCeil) ==>
              InRange(CalcGasLimit(limit, used, gasFloor, gasCeil), gasFloor, gasCeil)
  {
    if gasCeil >= BOUND_DIVISOR {
      forall limit: nat, used: nat | used <= limit && InRange(limit, gasFloor, gasCeil)
        ensures InRange(CalcGasLimit(limit, used, gasFloor, gasCeil), gasFloor, gasCeil)
      {
        Absorbing(limit, used, gasFloor, gasCeil);
      }
    } else {
      Wrapped(gasCeil, 0, gasFloor, gasCeil);
    }
  }

  /** Outside the range every block brings the limit strictly closer. */
  lemma Approaches(limit: nat, used: nat, gasFloor: nat, gasCeil: nat)
    requires 2 * BOUND_DIVISOR <= limit <= MAX_LIMIT && used <= limit && gasCeil <= MAX_LIMIT
    requires !InRange(limit, gasFloor, gasCeil)
    ensures var next := CalcGasLimit(limit, used, gasFloor, gasCeil);
            && Distance(next, gasFloor, gasCeil) < Distance(limit, gasFloor, gasCeil) && next <= MAX_LIMIT
            && (next >= 2 * BOUND_DIVISOR || InRange(next, gasFloor, gasCeil) || gasCeil < 2 * BOUND_DIVISOR - 1)
  {
    NoWrap(limit, used);
  }

  /** The limit after a run of blocks; a block uses at most its limit. */
  function Run(limit: nat, usage: seq<nat>, gasFloor: nat, gasCeil: nat): nat {
    if usage == [] then limit
    else
      var before := Run(limit, usage[..|usage| - 1], gasFloor, gasCeil);
      CalcGasLimit(before, Min(usage[|usage| - 1], before), gasFloor, gasCeil)
  }

  /** From a start of at least twice the bound divisor the range is reached after at most as many blocks as the distance to it. */
  lemma {:induction false} Reached(limit: nat, usage: seq<nat>, gasFloor: nat, gasCeil: nat)
    requires limit <= MAX_LIMIT && 2 * BOUND_DIVISOR - 1 <= gasCeil <= MAX_LIMIT
    requires 2 * BOUND_DIVISOR <= limit || InRange(limit, gasFloor, gasCeil)
    ensures var end := Run(limit, usage, gasFloor, gasCeil);
            && end <= MAX_LIMIT && (InRange(end, gasFloor, gasCeil) || end >= 2 * BOUND_DIVISOR)
            && (InRange(end, gasFloor, gasCeil) || Distance(end, gasFloor, gasCeil) + |usage| <= Distance(limit, gasFloor, gasCeil))
  {
    if usage != [] {
      var rest := usage[..|usage| - 1];
      var before := Run(limit, rest, gasFloor, gasCeil);
      var used := Min(usage[|usage| - 1], before);
      Reached(limit, rest, gasFloor, gasCeil);
      if InRange(before, gasFloor, gasCeil) {
        Absorbing(before, used, gasFloor, gasCeil);
      } else {
        Approaches(before, used, gasFloor, gasCeil);
      }
    }
  }

  lemma {:induction false} StaysIn(limit: nat, usage: seq<nat>, gasFloor: nat, gasCeil: nat)
    requires BOUND_DIVISOR <= gasCeil <= MAX_LIMIT && InRange(limit, gasFloor, gasCeil)
    ensures InRange(Run(limit, usage, gasFloor, gasCeil), gasFloor, gasCeil)
  {
    if usage != [] {
      StaysIn(limit, usage[..|usage| - 1], gasFloor, gasCeil);
      var before := Run(limit, usage[..|usage| - 1], gasFloor, gasCeil);
      Absorbing(before, Min(usage[|usage| - 1], before), gasFloor, gasCeil);
    }
  }

  /**
   * From below the bound divisor and below the range the limit falls block by block, and from zero it
   * wraps around and is set to the floor, unless a block's usage lifts it into the range before.
   */
  lemma {:induction false} FallsIn(limit: nat, usage: seq<nat>, gasFloor: nat, gasCeil: nat)
    requires limit < BOUND_DIVISOR <= gasCeil <= MAX_LIMIT && limit < Min(gasFloor, gasCeil)
    ensures var end := Run(limit, usage, gasFloor, gasCeil);
            InRange(end, gasFloor, gasCeil) || (end + |usage| == limit && end < Min(gasFloor, gasCeil))
  {
    if usage != [] {
      FallsIn(limit, usage[..|usage| - 1], gasFloor, gasCeil);
      var before := Run(limit, usage[..|usage| - 1], gasFloor, gasCeil);
      var used := Min(usage[|usage| - 1], before);
      if InRange(before, gasFloor, gasCeil) {
        Absorbing(before, used, gasFloor, gasCeil);
      } else {
        Wrapped(before, used, gasFloor, gasCeil);
      }
    }
  }

  /** Below 2048 the decay is zero: a limit that must fall below 2047 gets stuck above the range. */
  lemma {:induction false} Stuck(limit: nat, usage: seq<nat>, gasFloor: nat, gasCeil: nat)
    requires 2 * BOUND_DIVISOR - 1 <= limit <= MAX_LIMIT && gasCeil < 2 * BOUND_DIVISOR - 1
    ensures 2 * BOUND_DIVISOR - 1 <= Run(limit, usage, gasFloor, gasCeil) <= MAX_LIMIT
  {
    if usage != [] {
      Stuck(limit, usage[..|usage| - 1], gasFloor, gasCeil);
      var before := Run(limit, usage[..|usage| - 1], gasFloor, gasCeil);
      StuckStays(before, Min(usage[|usage| - 1], before), gasFloor, gasCeil);
    }
  }

  lemma StuckStays(limit: nat, used: nat, gasFloor: nat, gasCeil: nat)
    requires 2 * BOUND_DIVISOR - 1 <= limit <= MAX_LIMIT && used <= limit && gasCeil < 2 * BOUND_DIVISOR - 1
    ensures 2 * BOUND_DIVISOR - 1 <= CalcGasLimit(limit, used, gasFloor, gasCeil) <= MAX_LIMIT
  {
    NoWrap(limit, used);
  }

  function Idle(n: nat): (usage: seq<nat>)
    ensures |usage| == n && forall i :: 0 <= i < n ==> usage[i] == 0
  {
    seq(n, _ => 0)
  }

  lemma IdleStep(limit: nat, n: nat, gasFloor: nat, gasCeil: nat)
    ensures Run(limit, Idle(n + 1), gasFloor, gasCeil) == CalcGasLimit(Run(limit, Idle(n), gasFloor, gasCeil), 0, gasFloor, gasCeil)
  {
    assert Idle(n + 1)[..n] == Idle(n);
  }

  /** Between the bound divisor and its double an idle chain keeps a limit that is out of the range. */
  lemma {:induction false} StuckBetween(limit: nat, n: nat, gasFloor: nat, gasCeil: nat)
    requires BOUND_DIVISOR <= limit < 2 * BOUND_DIVISOR && gasCeil <= MAX_LIMIT && !InRange(limit, gasFloor, gasCeil)
    ensures Run(limit, Idle(n), gasFloor, gasCeil) == limit
  {
    if n > 0 {
      StuckBetween(limit, n - 1, gasFloor, gasCeil);
      IdleStep(limit, n - 1, gasFloor, gasCeil);
      BetweenStays(limit, gasFloor, gasCeil);
    }
  }

  lemma BetweenStays(limit: nat, gasFloor: nat, gasCeil: nat)
    requires BOUND_DIVISOR <= limit < 2 * BOUND_DIVISOR && gasCeil <= MAX_LIMIT && !InRange(limit, gasFloor, gasCeil)
    ensures CalcGasLimit(limit, 0, gasFloor, gasCeil) == limit
  {
    NoWrap(limit, 0);
    assert limit / BOUND_DIVISOR == 1;
  }

  /** With a ceiling below the bound divisor an idle chain's limit that is above it stays above it. */
  lemma {:induction false} StuckAbove(limit: nat, n: nat, gasFloor: nat, gasCeil: nat)
    requires gasCeil < limit <= BOUND_DIVISOR
    ensures gasCeil < Run(limit, Idle(n), gasFloor, gasCeil) <= BOUND_DIVISOR
  {
    if n > 0 {
      StuckAbove(limit, n - 1, gasFloor, gasCeil);
      IdleStep(limit, n - 1, gasFloor, gasCeil);
      AboveStays(Run(limit, Idle(n - 1), gasFloor, gasCeil), gasFloor, gasCeil);
    }
  }

  lemma AboveStays(limit: nat, gasFloor: nat, gasCeil: nat)
    requires gasCeil < limit <= BOUND_DIVISOR
    ensures gasCeil < CalcGasLimit(limit, 0, gasFloor, gasCeil) <= BOUND_DIVISOR
  {
    if limit < BOUND_DIVISOR {
      Wrapped(limit, 0, gasFloor, gasCeil);
    } else {
      BetweenStays(limit, gasFloor, gasCeil);
    }
  }

  lemma {:induction false} IdleSplit(limit: nat, m: nat, n: nat, gasFloor: nat, gasCeil: nat)
    ensures Run(limit, Idle(m + n), gasFloor, gasCeil) == Run(Run(limit, Idle(m), gasFloor, gasCeil), Idle(n), gasFloor, gasCeil)
    decreases n
  {
    if n > 0 {
      IdleSplit(limit, m, n - 1, gasFloor, gasCeil);
      IdleStep(limit, m + n - 1, gasFloor, gasCeil);
      IdleStep(Run(limit, Idle(m), gasFloor, gasCeil), n - 1, gasFloor, gasCeil);
    }
  }

  /** And from anywhere below it, it gets there: up from the range, and from below the range down to zero and then up. */
  lemma {:induction false} GetsAbove(limit: nat, gasFloor: nat, gasCeil: nat) returns (n: nat)
    requires limit <= gasCeil < BOUND_DIVISOR
    ensures gasCeil < Run(limit, Idle(n), gasFloor, gasCeil) <= BOUND_DIVISOR
    decreases limit < Min(gasFloor, gasCeil), if limit < Min(gasFloor, gasCeil) then limit else gasCeil - limit
  {
    Wrapped(limit, 0, gasFloor, gasCeil);
    var next := CalcGasLimit(limit, 0, gasFloor, gasCeil);
    IdleStep(limit, 0, gasFloor, gasCeil);
    assert Run(limit, Idle(1), gasFloor, gasCeil) == next;
    if next > gasCeil {
      n := 1;
    } else {
      var m := GetsAbove(next, gasFloor, gasCeil);
      IdleSplit(limit, 1, m, gasFloor, gasCeil);
      n := 1 + m;
    }
  }

  /** Long enough runs end in the range. */
  ghost predicate Settles(limit: nat, gasFloor: nat, gasCeil: nat) {
    exists n: nat :: SettlesIn(limit, n, gasFloor, gasCeil)
  }

  ghost predicate SettlesIn(limit: nat, n: nat, gasFloor: nat, gasCeil: nat) {
    forall usage: seq<nat> :: |usage| >= n ==> InRange(Run(limit, usage, gasFloor, gasCeil), gasFloor, gasCeil)
  }

  /** Where the controller settles: the starts and ceilings from which it comes into its range and stays. */
  predicate Good(limit: nat, gasFloor: nat, gasCeil: nat) {
    if limit < BOUND_DIVISOR then gasCeil >= BOUND_DIVISOR
    else InRange(limit, gasFloor, gasCeil) || (limit >= 2 * BOUND_DIVISOR && gasCeil >= 2 * BOUND_DIVISOR - 1)
  }

  /**
   * The controller settles in its range exactly from these starts: below the bound divisor if the
   * ceiling is not below it; from there on if the start is in the range, or it is at least twice the
   * bound divisor and the ceiling at least one less than that.
   */
  lemma SettlesIff(limit: nat, gasFloor: nat, gasCeil: nat)
    requires limit <= MAX_LIMIT && gasCeil <= MAX_LIMIT
    ensures Settles(limit, gasFloor, gasCeil) <==> Good(limit, gasFloor, gasCeil)
  {
    if Good(limit, gasFloor, gasCeil) {
      GoodSettles(limit, gasFloor, gasCeil);
    } else {
      forall n: nat ensures !SettlesIn(limit, n, gasFloor, gasCeil) {
        BadStrays(limit, n, gasFloor, gasCeil);
      }
    }
  }

  lemma GoodSettles(limit: nat, gasFloor: nat, gasCeil: nat)
    requires limit <= MAX_LIMIT && gasCeil <= MAX_LIMIT && Good(limit, gasFloor, gasCeil)
    ensures SettlesIn(limit, Distance(limit, gasFloor, gasCeil) + BOUND_DIVISOR, gasFloor, gasCeil)
  {
    var n := Distance(limit, gasFloor, gasCeil) + BOUND_DIVISOR;
    forall usage: seq<nat> | |usage| >= n ensures InRange(Run(limit, usage, gasFloor, gasCeil), gasFloor, gasCeil) {
      if InRange(limit, gasFloor, gasCeil) {
        StaysIn(limit, usage, gasFloor, gasCeil);
      } else if limit < BOUND_DIVISOR {
        FallsIn(limit, usage, gasFloor, gasCeil);
      } else {
        Reached(limit, usage, gasFloor, gasCeil);
      }
    }
  }

  /** From any other start there are runs of every length, idle ones, that end out of the range. */
  lemma BadStrays(limit: nat, n: nat, gasFloor: nat, gasCeil: nat)
    requires limit <= MAX_LIMIT && gasCeil <= MAX_LIMIT && !Good(limit, gasFloor, gasCeil)
    ensures !SettlesIn(limit, n, gasFloor, gasCeil)
  {
    var usage := Idle(n);
    if limit < BOUND_DIVISOR {
      var m := 0;
      if limit <= gasCeil {
        m := GetsAbove(limit, gasFloor, gasCeil);
      }
      usage := Idle(m + n);
      IdleSplit(limit, m, n, gasFloor, gasCeil);
      StuckAbove(Run(limit, Idle(m), gasFloor, gasCeil), n, gasFloor, gasCeil);
    } else if limit < 2 * BOUND_DIVISOR {
      StuckBetween(limit, n, gasFloor, gasCeil);
    } else {
      Stuck(limit, usage, gasFloor, gasCeil);
    }
    assert |usage| >= n && !InRange(Run(limit, usage, gasFloor, gasCeil), gasFloor, gasCeil);
  }
}
