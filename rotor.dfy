/** A rotor: a wiring fixed inside a body that turns. Its position moves
    (one step at a time, or by a manual setting); its ring setting, its
    turnover (notch) positions and its wiring never change. */
module Rotors {
  import opened Wrappers
  import opened Wirings

  /** Largest alphabet for which every byte-sized sum in the translation
      formulas (at most 2N - 1) stays below 256. */
  const MaxOverflowFreeSize: nat := 128

  /** Reduction of a sum of two contacts: at most one wrap-around. */
  lemma ReduceOnce(v: nat, n: nat)
    requires 0 < n && v < 2 * n
    ensures v % n == if v < n then v else v - n
  {
  }

  /** Shift a contact forward by g (a ring setting or a rotor position),
      as the Rust code writes it: (c + g) mod n. */
  function ShiftIn(c: nat, g: nat, n: nat): (r: nat)
    requires 0 < n
    ensures r < n
  {
    (c + g) % n
  }

  /** Shift a contact back by g < n, as the Rust code writes it:
      (c + n - g) mod n. */
  function ShiftOut(c: nat, g: nat, n: nat): (r: nat)
    requires g < n
    ensures r < n
  {
    (c + n - g) % n
  }

  /** The two shifts by the same amount cancel out, in either order. */
  lemma ShiftBack(a: nat, g: nat, n: nat)
    requires a < n && g < n
    ensures ShiftIn(ShiftOut(a, g, n), g, n) == a
    ensures ShiftOut(ShiftIn(a, g, n), g, n) == a
  {
    ReduceOnce(a + n - g, n);
    ReduceOnce((a + n - g) % n + g, n);
    ReduceOnce(a + g, n);
    ReduceOnce((a + g) % n + n - g, n);
  }

  class Rotor {
    var position: nat
    const turnoverPositions: seq<nat>
    const ringSetting: nat
    const wiring: Wiring

    /** The settings construction checks; none of them ever changes. */
    predicate WellBuilt()
    {
      WellFormed(wiring) && Len(wiring).Some? &&
      ringSetting < |wiring.table| &&
      forall t :: t in turnoverPositions ==> t < |wiring.table|
    }

    /** The rotor invariant: well built, and the position is a contact. */
    ghost predicate Valid()
      reads this
    {
      WellBuilt() && position < |wiring.table|
    }

    /** Construction: the position, the ring setting and every turnover
        position must be contacts of the wiring, whose length must fit in a
        byte. */
    constructor (position: nat, turnoverPositions: seq<nat>, ringSetting: nat, wiring: Wiring)
      requires WellFormed(wiring) && Len(wiring).Some?
      requires position < |wiring.table|
      requires ringSetting < |wiring.table|
      requires forall t :: t in turnoverPositions ==> t < |wiring.table|
      ensures Valid()
      ensures this.position == position && this.turnoverPositions == turnoverPositions
      ensures this.ringSetting == ringSetting && this.wiring == wiring
    {
      this.position := position;
      this.turnoverPositions := turnoverPositions;
      this.ringSetting := ringSetting;
      this.wiring := wiring;
    }

    /** The number of contacts, N; below 256 for every constructed rotor. */
    function RotorPositions(): (n: nat)
      requires WellFormed(wiring) && Len(wiring).Some?
      ensures n == |wiring.table| && n < MaxMapSize
    {
      Len(wiring).value
    }

    /** One step, wrapping from N - 1 back to 0. */
    method Advance()
      requires Valid()
      modifies this`position
      ensures Valid()
      ensures position == (old(position) + 1) % RotorPositions()
    {
      position := (position + 1) % RotorPositions();
    }

    /** Manual setting; the Rust code panics on a position that is not a
        contact. */
    method SetRotorPosition(p: nat)
      requires Valid()
      requires p < RotorPositions()
      modifies this`position
      ensures Valid() && GetRotorPosition() == p
    {
      position := p;
    }

    function GetRotorPosition(): (p: nat)
      reads this
      requires Valid()
      ensures p == position && p < RotorPositions()
    {
      position
    }

    /** Whether the position is one of the turnover positions, found by a
        linear scan of the notch list. */
    method IsNotchPositioned() returns (b: bool)
      ensures b <==> position in turnoverPositions
    {
      var i := 0;
      while i < |turnoverPositions|
        invariant 0 <= i <= |turnoverPositions|
        invariant forall j :: 0 <= j < i ==> turnoverPositions[j] != position
      {
        if position == turnoverPositions[i] {
          return true;
        }
        i := i + 1;
      }
      return false;
    }

    /** Right-to-left translation: shift into the wiring's frame by the ring
        setting, look the contact up forwards, shift back. */
    function TranslateRToL(x: nat): (r: nat)
      requires WellBuilt() && |wiring.table| <= MaxOverflowFreeSize
      requires x < |wiring.table|
      ensures r < |wiring.table|
    {
      var n := RotorPositions();
      var inputContact := ShiftIn(x, ringSetting, n);
      var outputContact := Translate(wiring, inputContact);
      ShiftOut(outputContact, ringSetting, n)
    }

    /** Left-to-right translation: the same shifts around a backward lookup,
        which fails (a panic in the Rust code) when no wire ends at the
        shifted contact. */
    function TranslateLToR(x: nat): (r: Option<nat>)
      requires WellBuilt() && |wiring.table| <= MaxOverflowFreeSize
      requires x < |wiring.table|
      ensures r.Some? <==> ShiftIn(x, ringSetting, |wiring.table|) in wiring.table
      ensures r.Some? ==> r.value < |wiring.table|
    {
      var n := RotorPositions();
      var inputContact := ShiftIn(x, ringSetting, n);
      match TranslateBackwards(wiring, inputContact)
      case None => None
      case Some(outputContact) => Some(ShiftOut(outputContact, ringSetting, n))
    }
  }

  /** With ring setting 0 the shifts vanish and a rotor is its bare wiring. */
  lemma RingZeroIsPlainWiring(r: Rotor, x: nat)
    requires r.WellBuilt() && |r.wiring.table| <= MaxOverflowFreeSize
    requires r.ringSetting == 0 && x < |r.wiring.table|
    ensures r.TranslateRToL(x) == Translate(r.wiring, x)
    ensures r.TranslateLToR(x) == TranslateBackwards(r.wiring, x)
  {
    var n := |r.wiring.table|;
    ReduceOnce(x, n);
    ReduceOnce(Translate(r.wiring, x) + n, n);
    var b := TranslateBackwards(r.wiring, x);
    if b.Some? {
      ReduceOnce(b.value + n, n);
    }
  }

  /** Left-to-right undoes right-to-left, for every ring setting, when the
      wiring is a permutation. */
  lemma RotorRoundTrip(r: Rotor, x: nat)
    requires r.WellBuilt() && |r.wiring.table| <= MaxOverflowFreeSize
    requires IsPermutation(r.wiring) && x < |r.wiring.table|
    ensures r.TranslateLToR(r.TranslateRToL(x)) == Some(x)
  {
    var n, g := |r.wiring.table|, r.ringSetting;
    var c := ShiftIn(x, g, n);
    var o := Translate(r.wiring, c);
    ShiftBack(o, g, n);
    BackwardsUndoesTranslate(r.wiring, c);
    ShiftBack(x, g, n);
  }

  /** Right-to-left undoes left-to-right, for every ring setting, when the
      wiring is a permutation; the backward lookup then never fails. */
  lemma RotorRoundTripBackwards(r: Rotor, x: nat)
    requires r.WellBuilt() && |r.wiring.table| <= MaxOverflowFreeSize
    requires IsPermutation(r.wiring) && x < |r.wiring.table|
    ensures r.TranslateLToR(x).Some?
    ensures r.TranslateRToL(r.TranslateLToR(x).value) == x
  {
    var n, g := |r.wiring.table|, r.ringSetting;
    var c := ShiftIn(x, g, n);
    PermutationIsOnto(r.wiring, c);
    var i := TranslateBackwards(r.wiring, c).value;
    ShiftBack(i, g, n);
    assert Translate(r.wiring, i) == c;
    ShiftBack(x, g, n);
  }
}
