/** The rotor mechanism: a fixed entry wheel, at least three rotors ordered
    right to left, and a reflector. It owns the stepping rule (with the
    double-step anomaly) and the reflected signal path. */
module RotorMechanisms {
  import opened Wrappers
  import opened Wirings
  import opened Rotors

  const MinRotors: nat := 3

  /** The stepping rule for rotor i of n (0 is rightmost), from the notch
      states before the keystroke: the rightmost rotor always steps, the
      leftmost only when its right neighbour was at a notch, and a middle
      rotor when it or its right neighbour was at a notch. */
  predicate Steps(notch: seq<bool>, i: nat)
    requires 2 <= |notch| && i < |notch|
  {
    if i == 0 then true
    else if i == |notch| - 1 then notch[i - 1]
    else notch[i] || notch[i - 1]
  }

  /** Shifting into a rotor's frame by its position p, through it right to
      left, and back out, is undone by the same shifts around the left to
      right translation, when the wiring is a permutation. */
  lemma FrameShiftRoundTrip(r: Rotor, p: nat, c: nat)
    requires r.WellBuilt() && |r.wiring.table| <= MaxOverflowFreeSize
    requires IsPermutation(r.wiring) && p < |r.wiring.table| && c < |r.wiring.table|
    ensures var n := |r.wiring.table|;
      var e := ShiftOut(r.TranslateRToL(ShiftIn(c, p, n)), p, n);
      r.TranslateLToR(ShiftIn(e, p, n)) == Some(ShiftIn(c, p, n))
  {
    var n := |r.wiring.table|;
    var s := ShiftIn(c, p, n);
    ShiftBack(r.TranslateRToL(s), p, n);
    RotorRoundTrip(r, s);
  }

  /** The same with the two directions exchanged; the backward lookup then
      never fails. */
  lemma FrameShiftRoundTripBackwards(r: Rotor, p: nat, c: nat)
    requires r.WellBuilt() && |r.wiring.table| <= MaxOverflowFreeSize
    requires IsPermutation(r.wiring) && p < |r.wiring.table| && c < |r.wiring.table|
    ensures var n := |r.wiring.table|;
      r.TranslateLToR(ShiftIn(c, p, n)).Some? &&
      var e := ShiftOut(r.TranslateLToR(ShiftIn(c, p, n)).value, p, n);
      r.TranslateRToL(ShiftIn(e, p, n)) == ShiftIn(c, p, n)
  {
    var n := |r.wiring.table|;
    var s := ShiftIn(c, p, n);
    RotorRoundTripBackwards(r, s);
    ShiftBack(r.TranslateLToR(s).value, p, n);
  }

  class RotorMechanism {
    const etw: Rotor
    const rotors: seq<Rotor>  // ordered right to left
    const reflector: Wiring
    const rotorPositions: nat

    /** What construction checks, plus what the rotors' own construction
        guarantees about their fixed settings. */
    predicate Wired()
    {
      |rotors| >= MinRotors && rotorPositions > 0 &&
      etw.WellBuilt() &&
      forall k :: 0 <= k < |rotors| ==>
        rotors[k].WellBuilt() && rotors[k].RotorPositions() == rotorPositions
    }

    /** What the signal path needs beyond construction: an entry wheel and a
        reflector of the mechanism's size, and an alphabet small enough that
        no byte-sized sum overflows. */
    predicate CanTranslate()
    {
      Wired() && rotorPositions <= MaxOverflowFreeSize &&
      |etw.wiring.table| == rotorPositions &&
      WellFormed(reflector) && |reflector.table| == rotorPositions
    }

    /** Each wheel is its own object: the mechanism owns its rotors and
        its entry wheel. */
    predicate Owned()
    {
      etw !in rotors &&
      forall j, k :: 0 <= j < k < |rotors| ==> rotors[j] != rotors[k]
    }

    /** The mechanism invariant: well wired, owned, and every rotor stands
        at a contact. */
    ghost predicate Valid()
      reads rotors
    {
      Wired() && Owned() &&
      forall k :: 0 <= k < |rotors| ==> rotors[k].Valid()
    }

    /** The rotor positions, right to left. */
    ghost function Positions(): (pos: seq<nat>)
      reads rotors
    {
      seq(|rotors|, k requires 0 <= k < |rotors| reads rotors => rotors[k].position)
    }

    /** A vector of positions the mechanism could stand at. */
    predicate PositionsOk(pos: seq<nat>)
    {
      |pos| == |rotors| && forall k :: 0 <= k < |pos| ==> pos[k] < rotorPositions
    }

    constructor (etw: Rotor, rotors: seq<Rotor>, reflector: Wiring, rotorPositions: nat)
      requires |rotors| >= MinRotors
      requires forall k :: 0 <= k < |rotors| ==>
        rotors[k].Valid() && rotors[k].RotorPositions() == rotorPositions
      requires etw.WellBuilt() && etw !in rotors
      requires forall j, k :: 0 <= j < k < |rotors| ==> rotors[j] != rotors[k]
      ensures Valid()
      ensures this.etw == etw && this.rotors == rotors
      ensures this.reflector == reflector && this.rotorPositions == rotorPositions
    {
      assert rotors[0].Valid();
      this.etw := etw;
      this.rotors := rotors;
      this.reflector := reflector;
      this.rotorPositions := rotorPositions;
    }

    // ---------------------------------------------------------------
    // Stepping
    // ---------------------------------------------------------------

    /** Which rotors stand at one of their own notches. */
    function Notches(pos: seq<nat>): seq<bool>
      requires |pos| == |rotors|
    {
      seq(|pos|, k requires 0 <= k < |pos| => pos[k] in rotors[k].turnoverPositions)
    }

    /** The positions after one keystroke, every decision taken from the
        positions before it. The rightmost rotor always steps; a rotor whose
        right neighbour stood at a notch is always carried; the leftmost
        rotor moves only on such a carry, never by its own notch. */
    function Stepped(pos: seq<nat>): (r: seq<nat>)
      requires Wired() && |pos| == |rotors|
      ensures |r| == |pos|
      ensures r[0] == (pos[0] + 1) % rotorPositions
      ensures forall k {:trigger r[k]} :: 0 < k < |pos| && pos[k - 1] in rotors[k - 1].turnoverPositions ==>
        r[k] == (pos[k] + 1) % rotorPositions
      ensures r[|pos| - 1] != pos[|pos| - 1] ==> pos[|pos| - 2] in rotors[|pos| - 2].turnoverPositions
    {
      var notch := Notches(pos);
      seq(|pos|, k requires 0 <= k < |pos| =>
        if Steps(notch, k) then (pos[k] + 1) % rotorPositions else pos[k])
    }

    /** One keystroke's stepping. The leftmost rotor is decided first, then
        the middle rotors from left to right-most, then the rightmost rotor
        steps; each decision reads only rotors not yet moved, so all of them
        see the positions before the call. */
    method Advance()
      requires Valid()
      modifies rotors
      ensures Valid()
      ensures Positions() == Stepped(old(Positions()))
      ensures etw.position == old(etw.position)
    {
      ghost var before := Positions();
      ghost var after := Stepped(before);
      PositionsAre();
      var n := |rotors|;
      ghost var right := rotors[0].position;

      // leftmost rotor
      var carry := rotors[n - 2].IsNotchPositioned();
      SteppedAt(before, n - 1);
      if carry {
        rotors[n - 1].Advance();
      }
      ghost var left := rotors[n - 1].position;
      assert left == after[n - 1];
      assert rotors[0].position == right;

      // middle rotors, descending
      AdvanceMiddleRotors(before);

      // rightmost rotor always advances
      SteppedAt(before, 0);
      rotors[0].Advance();
      assert rotors[0].position == after[0];
      assert rotors[n - 1].position == left;
      StandsAt(after);
    }

    /** The middle rotors, leftmost first: each steps when it or its right
        neighbour stands at a notch. Only the rotors to the left of the one
        deciding have moved, so every decision sees the positions `before`
        the keystroke. */
    method AdvanceMiddleRotors(ghost before: seq<nat>)
      requires Valid() && |before| == |rotors|
      requires forall k {:trigger before[k]} :: 0 <= k < |rotors| - 1 ==> rotors[k].position == before[k]
      modifies rotors
      ensures Valid()
      ensures forall k {:trigger Stepped(before)[k]} :: 0 < k < |rotors| - 1 ==>
        rotors[k].position == Stepped(before)[k]
      ensures rotors[0].position == old(rotors[0].position)
      ensures rotors[|rotors| - 1].position == old(rotors[|rotors| - 1].position)
    {
      var n := |rotors|;
      ghost var after := Stepped(before);
      var i := n - 2;
      while i >= 1
        invariant 0 <= i <= n - 2
        invariant forall k :: 0 <= k < n ==> rotors[k].Valid()
        invariant forall k {:trigger before[k]} :: 0 <= k <= i ==> rotors[k].position == before[k]
        invariant forall k {:trigger after[k]} :: i < k < n - 1 ==> rotors[k].position == after[k]
        invariant rotors[n - 1].position == old(rotors[n - 1].position)
        invariant rotors[0].position == old(rotors[0].position)
      {
        var own := rotors[i].IsNotchPositioned();
        var right := rotors[i - 1].IsNotchPositioned();
        assert rotors[i].position == before[i] && rotors[i - 1].position == before[i - 1];
        SteppedAt(before, i);
        if own || right {
          rotors[i].Advance();
        }
        i := i - 1;
      }
    }

    /** The current positions, rotor by rotor. */
    lemma PositionsAre()
      ensures |Positions()| == |rotors|
      ensures forall k {:trigger Positions()[k]} :: 0 <= k < |rotors| ==>
        Positions()[k] == rotors[k].position
    {
    }

    /** Positions that every rotor stands at are the positions. */
    lemma StandsAt(target: seq<nat>)
      requires |target| == |rotors|
      requires forall k {:trigger target[k]} :: 0 <= k < |rotors| ==> rotors[k].position == target[k]
      ensures Positions() == target
    {
      PositionsAre();
    }

    /** The stepping rule for one rotor, written out. */
    lemma SteppedAt(pos: seq<nat>, k: nat)
      requires Wired() && |pos| == |rotors| && k < |rotors|
      ensures |Stepped(pos)| == |pos|
      ensures Stepped(pos)[k] ==
        if k == 0 ||
           (k == |rotors| - 1 && pos[k - 1] in rotors[k - 1].turnoverPositions) ||
           (0 < k < |rotors| - 1 &&
            (pos[k] in rotors[k].turnoverPositions || pos[k - 1] in rotors[k - 1].turnoverPositions))
        then (pos[k] + 1) % rotorPositions
        else pos[k]
    {
    }

    /** A rotor moves on a keystroke exactly when the stepping rule says so
        (given more than one position, so a step is visible). */
    lemma MovesIffTriggered(pos: seq<nat>, k: nat)
      requires Wired() && PositionsOk(pos) && rotorPositions >= 2 && k < |rotors|
      ensures Stepped(pos)[k] != pos[k] <==>
        (k == 0 ||
         (k == |rotors| - 1 && pos[k - 1] in rotors[k - 1].turnoverPositions) ||
         (0 < k < |rotors| - 1 &&
          (pos[k] in rotors[k].turnoverPositions || pos[k - 1] in rotors[k - 1].turnoverPositions)))
    {
      Rotors.ReduceOnce(pos[k] + 1, rotorPositions);
    }

    /** Each rotor moves by at most one position, and stays a contact. */
    lemma StepMovesAtMostOne(pos: seq<nat>)
      requires Wired() && PositionsOk(pos)
      ensures PositionsOk(Stepped(pos))
      ensures forall k :: 0 <= k < |pos| ==>
        Stepped(pos)[k] == pos[k] || Stepped(pos)[k] == (pos[k] + 1) % rotorPositions
    {
    }

    /** Double step: a middle rotor at its own notch steps, and carries its
        left neighbour with it, even when its right neighbour is not at a
        notch. */
    lemma DoubleStep(pos: seq<nat>, k: nat)
      requires Wired() && PositionsOk(pos)
      requires 0 < k < |rotors| - 1
      requires pos[k] in rotors[k].turnoverPositions
      requires pos[k - 1] !in rotors[k - 1].turnoverPositions
      ensures Stepped(pos)[k] == (pos[k] + 1) % rotorPositions
      ensures Stepped(pos)[k + 1] == (pos[k + 1] + 1) % rotorPositions
    {
      assert Notches(pos)[k];
    }

    /** The anomaly over two keystrokes: when the right neighbour's notch
        brings a middle rotor onto its own notch, the middle rotor steps again
        on the very next keystroke, and its left neighbour with it. */
    lemma {:induction false} MiddleStepsOnConsecutiveKeystrokes(pos: seq<nat>, k: nat)
      requires Wired() && PositionsOk(pos)
      requires 0 < k < |rotors| - 1
      requires pos[k - 1] in rotors[k - 1].turnoverPositions
      requires (pos[k] + 1) % rotorPositions in rotors[k].turnoverPositions
      ensures Stepped(pos)[k] == (pos[k] + 1) % rotorPositions
      ensures Stepped(Stepped(pos))[k] == (Stepped(pos)[k] + 1) % rotorPositions
      ensures Stepped(Stepped(pos))[k + 1] == (Stepped(pos)[k + 1] + 1) % rotorPositions
    {
      var once := Stepped(pos);
      assert Notches(pos)[k - 1];
      assert once[k] == (pos[k] + 1) % rotorPositions;
      assert Notches(once)[k];
    }

    // ---------------------------------------------------------------
    // Signal path
    // ---------------------------------------------------------------

    /** Rotor k right to left: into its frame by its position, through its
        wiring, back into the fixed frame. */
    function EnterRotor(pos: seq<nat>, k: nat, c: nat): (r: nat)
      requires CanTranslate() && PositionsOk(pos) && k < |rotors| && c < rotorPositions
      ensures r < rotorPositions
    {
      var n := rotorPositions;
      var out := rotors[k].TranslateRToL(ShiftIn(c, pos[k], n));
      ShiftOut(out, pos[k], n)
    }

    /** Rotor k left to right; fails where the backward lookup does. */
    function ExitRotor(pos: seq<nat>, k: nat, c: nat): (r: Option<nat>)
      requires CanTranslate() && PositionsOk(pos) && k < |rotors| && c < rotorPositions
      ensures r.Some? ==> r.value < rotorPositions
    {
      var n := rotorPositions;
      match rotors[k].TranslateLToR(ShiftIn(c, pos[k], n))
      case None => None
      case Some(out) => Some(ShiftOut(out, pos[k], n))
    }

    /** Rotors 0 .. k-1, right to left. */
    function ThroughRotorsRToL(pos: seq<nat>, k: nat, c: nat): (r: nat)
      requires CanTranslate() && PositionsOk(pos) && k <= |rotors| && c < rotorPositions
      ensures r < rotorPositions
      decreases k
    {
      if k == 0 then c else EnterRotor(pos, k - 1, ThroughRotorsRToL(pos, k - 1, c))
    }

    /** Rotors k-1 .. 0, left to right. */
    function ThroughRotorsLToR(pos: seq<nat>, k: nat, c: nat): (r: Option<nat>)
      requires CanTranslate() && PositionsOk(pos) && k <= |rotors| && c < rotorPositions
      ensures r.Some? ==> r.value < rotorPositions
      decreases k
    {
      if k == 0 then Some(c)
      else match ExitRotor(pos, k - 1, c)
        case None => None
        case Some(d) => ThroughRotorsLToR(pos, k - 1, d)
    }

    /** The whole path at rotor positions `pos`: entry wheel, rotors right
        to left, reflector, rotors left to right, entry wheel. */
    function SignalPath(pos: seq<nat>, x: nat): (r: Option<nat>)
      requires CanTranslate() && PositionsOk(pos) && x < rotorPositions
      ensures r.Some? ==> r.value < rotorPositions
    {
      var c := ThroughRotorsRToL(pos, |rotors|, etw.TranslateRToL(x));
      match ThroughRotorsLToR(pos, |rotors|, Wirings.Translate(reflector, c))
      case None => None
      case Some(d) => etw.TranslateLToR(d)
    }

    /** The signal path at the current positions; changes nothing. The
        Rust code panics on an input that is not a contact, and on a
        failed backward lookup, which is None here. */
    method Translate(input: nat) returns (r: Option<nat>)
      requires CanTranslate() && PositionsOk(Positions())
      requires input < rotorPositions
      ensures r == SignalPath(Positions(), input)
      ensures r.Some? ==> r.value < rotorPositions
    {
      var contact := etw.TranslateRToL(input);                 // enter via the entry wheel
      contact := PassRightToLeft(contact);
      contact := Wirings.Translate(reflector, contact);         // reflector
      var back := PassLeftToRight(contact);
      if back.None? {
        return None;
      }
      r := etw.TranslateLToR(back.value);                      // exit via the entry wheel
    }

    /** The right-to-left pass of the signal through every rotor, each in
        its own frame: shift in by its position, through its wiring, shift
        back out. */
    method PassRightToLeft(entered: nat) returns (contact: nat)
      requires CanTranslate() && PositionsOk(Positions())
      requires entered < rotorPositions
      ensures contact == ThroughRotorsRToL(Positions(), |rotors|, entered)
    {
      ghost var pos := Positions();
      contact := entered;
      var k: nat := 0;
      while k < |rotors|
        invariant 0 <= k <= |rotors|
        invariant contact == ThroughRotorsRToL(pos, k, entered)
      {
        var rotor := rotors[k];
        ghost var before := contact;
        var p := rotor.position;
        assert p == pos[k];
        contact := ShiftIn(contact, p, rotorPositions);       // into the rotor's frame
        contact := rotor.TranslateRToL(contact);
        contact := ShiftOut(contact, p, rotorPositions);      // back to the fixed frame
        assert contact == EnterRotor(pos, k, before);
        k := k + 1;
      }
    }

    /** The left-to-right pass, leftmost rotor first; None as soon as one
        backward lookup fails. */
    method PassLeftToRight(reflected: nat) returns (r: Option<nat>)
      requires CanTranslate() && PositionsOk(Positions())
      requires reflected < rotorPositions
      ensures r == ThroughRotorsLToR(Positions(), |rotors|, reflected)
    {
      ghost var pos := Positions();
      ghost var outcome := ThroughRotorsLToR(pos, |rotors|, reflected);
      var contact: nat := reflected;
      var k: nat := |rotors|;
      while k > 0
        invariant 0 <= k <= |rotors| && contact < rotorPositions
        invariant outcome == ThroughRotorsLToR(pos, k, contact)
      {
        var rotor := rotors[k - 1];
        ghost var before := contact;
        var p := rotor.position;
        assert p == pos[k - 1];
        contact := ShiftIn(contact, p, rotorPositions);
        var out := rotor.TranslateLToR(contact);
        ExitStep(pos, k, before, out);
        if out.None? {
          return None;
        }
        contact := ShiftOut(out.value, p, rotorPositions);
        k := k - 1;
      }
      return Some(contact);
    }

    /** One rotor of the left-to-right pass, as the loop computes it. */
    lemma ExitStep(pos: seq<nat>, k: nat, c: nat, out: Option<nat>)
      requires CanTranslate() && PositionsOk(pos) && 0 < k <= |rotors| && c < rotorPositions
      requires out == rotors[k - 1].TranslateLToR(ShiftIn(c, pos[k - 1], rotorPositions))
      ensures out.None? ==> ThroughRotorsLToR(pos, k, c).None?
      ensures out.Some? ==>
        ThroughRotorsLToR(pos, k, c) ==
        ThroughRotorsLToR(pos, k - 1, ShiftOut(out.value, pos[k - 1], rotorPositions))
    {
    }

    /** Every rotor of a valid mechanism stands at a contact. */
    lemma PositionsInRange()
      requires Valid()
      ensures PositionsOk(Positions())
    {
      forall k | 0 <= k < |rotors|
        ensures Positions()[k] < rotorPositions
      {
        assert rotors[k].Valid();
      }
    }

    // ---------------------------------------------------------------
    // Reciprocity at fixed positions
    // ---------------------------------------------------------------

    /** The hypothesis the Rust code does not check: every wheel wiring
        is a permutation. */
    predicate PermutationWired()
    {
      IsPermutation(etw.wiring) &&
      forall k :: 0 <= k < |rotors| ==> IsPermutation(rotors[k].wiring)
    }

    /** A rotor's back shift undoes its forward shift. */
    lemma ExitUndoesEnter(pos: seq<nat>, k: nat, c: nat)
      requires CanTranslate() && PermutationWired() && PositionsOk(pos)
      requires k < |rotors| && c < rotorPositions
      ensures ExitRotor(pos, k, EnterRotor(pos, k, c)) == Some(c)
    {
      var r, p := rotors[k], pos[k];
      assert r.WellBuilt() && |r.wiring.table| == rotorPositions;
      FrameShiftRoundTrip(r, p, c);
      ShiftBack(c, p, rotorPositions);
    }

    /** A rotor's forward shift undoes its back shift, which never fails. */
    lemma EnterUndoesExit(pos: seq<nat>, k: nat, c: nat)
      requires CanTranslate() && PermutationWired() && PositionsOk(pos)
      requires k < |rotors| && c < rotorPositions
      ensures ExitRotor(pos, k, c).Some?
      ensures EnterRotor(pos, k, ExitRotor(pos, k, c).value) == c
    {
      var r, p := rotors[k], pos[k];
      assert r.WellBuilt() && |r.wiring.table| == rotorPositions;
      FrameShiftRoundTripBackwards(r, p, c);
      ShiftBack(c, p, rotorPositions);
    }

    lemma {:induction false} BackUndoesForward(pos: seq<nat>, k: nat, c: nat)
      requires CanTranslate() && PermutationWired() && PositionsOk(pos)
      requires k <= |rotors| && c < rotorPositions
      ensures ThroughRotorsLToR(pos, k, ThroughRotorsRToL(pos, k, c)) == Some(c)
      decreases k
    {
      if k > 0 {
        var d := ThroughRotorsRToL(pos, k - 1, c);
        ExitUndoesEnter(pos, k - 1, d);
        BackUndoesForward(pos, k - 1, c);
      }
    }

    lemma {:induction false} ForwardUndoesBack(pos: seq<nat>, k: nat, c: nat)
      requires CanTranslate() && PermutationWired() && PositionsOk(pos)
      requires k <= |rotors| && c < rotorPositions
      ensures ThroughRotorsLToR(pos, k, c).Some?
      ensures ThroughRotorsRToL(pos, k, ThroughRotorsLToR(pos, k, c).value) == c
      decreases k
    {
      if k > 0 {
        EnterUndoesExit(pos, k - 1, c);
        var d := ExitRotor(pos, k - 1, c).value;
        ForwardUndoesBack(pos, k - 1, d);
      }
    }

    /** At fixed positions the mechanism is its own inverse: with permutation
        wheels and an involutive reflector, enciphering the output gives back
        the input, and no lookup fails. */
    lemma SignalPathIsInvolution(pos: seq<nat>, x: nat)
      requires CanTranslate() && PermutationWired() && IsInvolution(reflector)
      requires PositionsOk(pos) && x < rotorPositions
      ensures SignalPath(pos, x).Some?
      ensures SignalPath(pos, SignalPath(pos, x).value) == Some(x)
    {
      var m := |rotors|;
      var c1 := etw.TranslateRToL(x);
      var c2 := ThroughRotorsRToL(pos, m, c1);
      var c3 := Wirings.Translate(reflector, c2);
      ForwardUndoesBack(pos, m, c3);
      var c4 := ThroughRotorsLToR(pos, m, c3).value;
      RotorRoundTripBackwards(etw, c4);
      var y := etw.TranslateLToR(c4).value;
      assert SignalPath(pos, x) == Some(y);
      // the way back: y enters at c4, comes out of the rotors at c3,
      // is reflected to c2, and goes back through the rotors to c1
      assert etw.TranslateRToL(y) == c4;
      assert Wirings.Translate(reflector, c3) == c2;
      BackUndoesForward(pos, m, c1);
      RotorRoundTrip(etw, x);
    }

    /** With a reflector that has no fixed point, no symbol enciphers to
        itself. */
    lemma SignalPathHasNoFixedPoint(pos: seq<nat>, x: nat)
      requires CanTranslate() && PermutationWired()
      requires IsInvolution(reflector) && HasNoFixedPoint(reflector)
      requires PositionsOk(pos) && x < rotorPositions
      ensures SignalPath(pos, x) != Some(x)
    {
      var m := |rotors|;
      var c1 := etw.TranslateRToL(x);
      var c2 := ThroughRotorsRToL(pos, m, c1);
      var c3 := Wirings.Translate(reflector, c2);
      ForwardUndoesBack(pos, m, c3);
      var c4 := ThroughRotorsLToR(pos, m, c3).value;
      RotorRoundTripBackwards(etw, c4);
      var y := etw.TranslateLToR(c4).value;
      // y enters at c4 and leaves the rotors at c3, while x enters at c1
      // and leaves them at c2, the reflector's input for c3: y == x would
      // make c2 a fixed point of the reflector
      assert etw.TranslateRToL(y) == c4;
      assert ThroughRotorsRToL(pos, m, c4) == c3;
      assert c3 != c2;
    }
  }
}
