/**
 * The application's shared java.util.Random (GPSettings.getRandomInt), as an injected stream of
 * draws: the k-th call to nextInt(bound) answers tape(k) mod bound. The stream itself is a
 * parameter, so the model fixes the order and the bounds of the draws but not their values.
 */
module Randomness {

  /** The answer of the draw at position pos for the bound. */
  function Draw(tape: nat -> nat, pos: nat, bound: nat): (r: nat)
    requires bound > 0
    ensures r < bound
  {
    tape(pos) % bound
  }

  class Random {
    const tape: nat -> nat
    var pos: nat

    constructor (tape: nat -> nat)
      ensures this.tape == tape && pos == 0
    {
      this.tape := tape;
      pos := 0;
    }

    /** nextInt(bound): the next draw, in [0, bound); Java rejects bound 0. */
    method NextInt(bound: nat) returns (r: nat)
      requires bound > 0
      modifies this
      ensures r == Draw(tape, old(pos), bound) && r < bound
      ensures pos == old(pos) + 1
    {
      r := Draw(tape, pos, bound);
      pos := pos + 1;
    }
  }
}
