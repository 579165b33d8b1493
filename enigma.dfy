/** The machine as a whole: a rotor mechanism between two passes through
    the plugboard (stecker). Each keystroke checks the symbol, steps the
    rotors once, and only then enciphers. */
module Enigmas {
  import opened Wrappers
  import opened Wirings
  import opened Rotors
  import opened RotorMechanisms

  class Enigma {
    const mechanism: RotorMechanism
    const stecker: Wiring
    const alphabetSize: nat

    /** What construction establishes about the fixed parts: every wiring
        has the alphabet's size, and the entry wheel has ring setting 0 and
        no turnover position. */
    predicate Sized()
    {
      mechanism.Wired() && alphabetSize == mechanism.rotorPositions &&
      |mechanism.etw.wiring.table| == alphabetSize &&
      WellFormed(mechanism.reflector) && |mechanism.reflector.table| == alphabetSize &&
      WellFormed(stecker) && |stecker.table| == alphabetSize &&
      mechanism.etw.ringSetting == 0 && mechanism.etw.turnoverPositions == []
    }

    /** The machine invariant. */
    ghost predicate Valid()
      reads mechanism.rotors
    {
      Sized() && mechanism.Valid()
    }

    /** A machine whose alphabet is small enough for byte arithmetic. */
    predicate Ready()
    {
      Sized() && alphabetSize <= MaxOverflowFreeSize
    }

    /** The rotor positions, right to left. */
    ghost function Positions(): (pos: seq<nat>)
      reads mechanism.rotors
    {
      mechanism.Positions()
    }

    /** Construction: the entry-wheel, reflector and plugboard wirings must
        have the same byte-sized length N, every rotor must have N positions,
        and there must be at least three rotors. The entry wheel is built at
        position 0 with ring setting 0 and no turnover, which needs N > 0. */
    constructor (rotors: seq<Rotor>, etwWiring: Wiring, reflectorWiring: Wiring, steckerWiring: Wiring)
      requires WellFormed(etwWiring) && WellFormed(reflectorWiring) && WellFormed(steckerWiring)
      requires Len(etwWiring).Some? && Len(etwWiring).value > 0
      requires Len(reflectorWiring) == Len(etwWiring) && Len(steckerWiring) == Len(etwWiring)
      requires forall k :: 0 <= k < |rotors| ==>
        rotors[k].Valid() && rotors[k].RotorPositions() == |etwWiring.table|
      requires |rotors| >= MinRotors
      requires forall j, k :: 0 <= j < k < |rotors| ==> rotors[j] != rotors[k]
      ensures Valid()
      ensures alphabetSize == |etwWiring.table| && stecker == steckerWiring
      ensures mechanism.rotors == rotors && mechanism.reflector == reflectorWiring
      ensures mechanism.etw.wiring == etwWiring && mechanism.etw.position == 0
      ensures fresh(mechanism) && fresh(mechanism.etw)
    {
      var n := Len(etwWiring).value;
      var etw := new Rotor(0, [], 0, etwWiring);
      mechanism := new RotorMechanism(etw, rotors, reflectorWiring, n);
      stecker := steckerWiring;
      alphabetSize := n;
    }

    /** Plugboard, mechanism at rotor positions `pos`, plugboard. */
    function Encipher(pos: seq<nat>, x: nat): (r: Option<nat>)
      requires Ready() && mechanism.PositionsOk(pos) && x < alphabetSize
      ensures r.Some? ==> r.value < alphabetSize
    {
      match mechanism.SignalPath(pos, Wirings.Translate(stecker, x))
      case None => None
      case Some(y) => Some(Wirings.Translate(stecker, y))
    }

    /** One keystroke. A symbol outside the alphabet is rejected (a panic in
        the Rust code) before anything moves; otherwise the rotors step
        once and the symbol is enciphered at the new positions. None after
        the step stands for a failed backward lookup in a wheel that is not
        a permutation. */
    method Translate(input: nat) returns (r: Option<nat>)
      requires Valid() && Ready()
      modifies mechanism.rotors
      ensures Valid()
      ensures input >= alphabetSize ==> r == None && Positions() == old(Positions())
      ensures input < alphabetSize ==>
        Positions() == mechanism.Stepped(old(Positions())) &&
        r == Encipher(Positions(), input)
    {
      if input >= alphabetSize {
        return None;
      }
      mechanism.Advance();
      var steckered := Wirings.Translate(stecker, input);
      mechanism.PositionsInRange();
      var output := mechanism.Translate(steckered);
      if output.None? {
        return None;
      }
      r := Some(Wirings.Translate(stecker, output.value));
    }

    /** The hypotheses the Rust code does not check: permutation wheels,
        an involutive reflector and an involutive plugboard. */
    predicate Reciprocal()
    {
      mechanism.PermutationWired() && IsInvolution(mechanism.reflector) &&
      IsInvolution(stecker)
    }

    /** At fixed positions the machine is its own inverse: enciphering the
        output gives back the input. */
    lemma EncipherIsInvolution(pos: seq<nat>, x: nat)
      requires Ready() && Reciprocal()
      requires mechanism.PositionsOk(pos) && x < alphabetSize
      ensures Encipher(pos, x).Some?
      ensures Encipher(pos, Encipher(pos, x).value) == Some(x)
    {
      var s := Wirings.Translate(stecker, x);
      mechanism.SignalPathIsInvolution(pos, s);
      var m := mechanism.SignalPath(pos, s).value;
      var y := Wirings.Translate(stecker, m);
      assert Wirings.Translate(stecker, y) == m;
      assert mechanism.SignalPath(pos, m) == Some(s);
    }

    /** With a reflector that has no fixed point, no symbol enciphers to
        itself. */
    lemma NoSelfEncipherment(pos: seq<nat>, x: nat)
      requires Ready() && Reciprocal() && HasNoFixedPoint(mechanism.reflector)
      requires mechanism.PositionsOk(pos) && x < alphabetSize
      ensures Encipher(pos, x) != Some(x)
    {
      var s := Wirings.Translate(stecker, x);
      mechanism.SignalPathHasNoFixedPoint(pos, s);
      mechanism.SignalPathIsInvolution(pos, s);
      var m := mechanism.SignalPath(pos, s).value;
      // the plugboard is injective, so an output of x would need m == s
      assert m != s;
      assert Wirings.Translate(stecker, s) == x;
    }

    /** Reciprocity of a keystroke: two machines standing at the same
        positions, one typing x and reading y, the other typing y, read x. */
    lemma Reciprocity(pos: seq<nat>, x: nat, y: nat)
      requires Ready() && Reciprocal() && mechanism.PositionsOk(pos)
      requires x < alphabetSize && y < alphabetSize
      ensures mechanism.PositionsOk(mechanism.Stepped(pos))
      ensures Encipher(mechanism.Stepped(pos), x) == Some(y) ==>
        Encipher(mechanism.Stepped(pos), y) == Some(x)
    {
      mechanism.StepMovesAtMostOne(pos);
      EncipherIsInvolution(mechanism.Stepped(pos), x);
    }
  }
}
