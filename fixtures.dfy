/** The wheel set the command-line front end builds: rotors I, II and III
    (right to left: III, II, I) with notches Q, E and V, the UKW-B reflector,
    and identity entry wheel and plugboard, over the 26 letters A = 0 .. Z = 25.
    Their properties are checked letter by letter. */
module Fixtures {
  import opened Wrappers
  import opened Wirings
  import opened Rotors
  import opened RotorMechanisms

  const RotorI: seq<nat> :=    // EKMFLGDQVZNTOWYHXUSPAIBRCJ
    [4, 10, 12, 5, 11, 6, 3, 16, 21, 25, 13, 19, 14, 22, 24, 7, 23, 20, 18, 15, 0, 8, 1, 17, 2, 9]
  const RotorII: seq<nat> :=   // AJDKSIRUXBLHWTMCQGZNPYFVOE
    [0, 9, 3, 10, 18, 8, 17, 20, 23, 1, 11, 7, 22, 19, 12, 2, 16, 6, 25, 13, 15, 24, 5, 21, 14, 4]
  const RotorIII: seq<nat> :=  // BDFHJLCPRTXVZNYEIWGAKMUSQO
    [1, 3, 5, 7, 9, 11, 2, 15, 17, 19, 23, 21, 25, 13, 24, 4, 8, 22, 6, 0, 10, 12, 20, 18, 16, 14]
  const UkwB: seq<nat> :=      // YRUHQSLDPXNGOKMIEBFZCWVJAT
    [24, 17, 20, 7, 16, 18, 11, 3, 15, 23, 13, 6, 14, 10, 12, 8, 4, 1, 5, 25, 2, 22, 21, 9, 0, 19]
  const Identity: seq<nat> := seq(26, i => i)

  /** The three rotors read left to right: the inverse tables. */
  const RotorIInverse: seq<nat> :=
    [20, 22, 24, 6, 0, 3, 5, 15, 21, 25, 1, 4, 2, 10, 12, 19, 7, 23, 18, 11, 17, 8, 13, 16, 14, 9]
  const RotorIIInverse: seq<nat> :=
    [0, 9, 15, 2, 25, 22, 17, 11, 5, 1, 3, 10, 14, 19, 24, 20, 16, 6, 4, 13, 7, 23, 12, 8, 21, 18]
  const RotorIIIInverse: seq<nat> :=
    [19, 0, 6, 1, 15, 2, 18, 3, 16, 4, 20, 5, 21, 13, 25, 7, 24, 8, 23, 9, 22, 11, 17, 10, 14, 12]

  // --- the tables, letter by letter ---

  /** Rotor I's inverse table undoes it at letter x. */
  lemma RotorIAt(x: nat)
    requires x < 26
    ensures RotorI[x] < 26 && RotorIInverse[RotorI[x]] == x
  {
    if x < 13 {
      if x < 7 {
        if x < 4 {
          assert x == 0 || x == 1 || x == 2 || x == 3;
        } else {
          assert x == 4 || x == 5 || x == 6;
        }
      } else {
        if x < 10 {
          assert x == 7 || x == 8 || x == 9;
        } else {
          assert x == 10 || x == 11 || x == 12;
        }
      }
    } else {
      if x < 19 {
        if x < 16 {
          assert x == 13 || x == 14 || x == 15;
        } else {
          assert x == 16 || x == 17 || x == 18;
        }
      } else {
        if x < 23 {
          assert x == 19 || x == 20 || x == 21 || x == 22;
        } else {
          assert x == 23 || x == 24 || x == 25;
        }
      }
    }
  }

  /** Rotor II's inverse table undoes it at letter x. */
  lemma RotorIIAt(x: nat)
    requires x < 26
    ensures RotorII[x] < 26 && RotorIIInverse[RotorII[x]] == x
  {
    if x < 13 {
      if x < 7 {
        if x < 4 {
          assert x == 0 || x == 1 || x == 2 || x == 3;
        } else {
          assert x == 4 || x == 5 || x == 6;
        }
      } else {
        if x < 10 {
          assert x == 7 || x == 8 || x == 9;
        } else {
          assert x == 10 || x == 11 || x == 12;
        }
      }
    } else {
      if x < 19 {
        if x < 16 {
          assert x == 13 || x == 14 || x == 15;
        } else {
          assert x == 16 || x == 17 || x == 18;
        }
      } else {
        if x < 23 {
          assert x == 19 || x == 20 || x == 21 || x == 22;
        } else {
          assert x == 23 || x == 24 || x == 25;
        }
      }
    }
  }

  /** Rotor III's inverse table undoes it at letter x. */
  lemma RotorIIIAt(x: nat)
    requires x < 26
    ensures RotorIII[x] < 26 && RotorIIIInverse[RotorIII[x]] == x
  {
    if x < 13 {
      if x < 7 {
        if x < 4 {
          assert x == 0 || x == 1 || x == 2 || x == 3;
        } else {
          assert x == 4 || x == 5 || x == 6;
        }
      } else {
        if x < 10 {
          assert x == 7 || x == 8 || x == 9;
        } else {
          assert x == 10 || x == 11 || x == 12;
        }
      }
    } else {
      if x < 19 {
        if x < 16 {
          assert x == 13 || x == 14 || x == 15;
        } else {
          assert x == 16 || x == 17 || x == 18;
        }
      } else {
        if x < 23 {
          assert x == 19 || x == 20 || x == 21 || x == 22;
        } else {
          assert x == 23 || x == 24 || x == 25;
        }
      }
    }
  }

  /** UKW-B swaps letter x with a different letter. */
  lemma UkwBAt(x: nat)
    requires x < 26
    ensures UkwB[x] < 26 && UkwB[UkwB[x]] == x && UkwB[x] != x
  {
    if x < 13 {
      if x < 7 {
        if x < 4 {
          assert x == 0 || x == 1 || x == 2 || x == 3;
        } else {
          assert x == 4 || x == 5 || x == 6;
        }
      } else {
        if x < 10 {
          assert x == 7 || x == 8 || x == 9;
        } else {
          assert x == 10 || x == 11 || x == 12;
        }
      }
    } else {
      if x < 19 {
        if x < 16 {
          assert x == 13 || x == 14 || x == 15;
        } else {
          assert x == 16 || x == 17 || x == 18;
        }
      } else {
        if x < 23 {
          assert x == 19 || x == 20 || x == 21 || x == 22;
        } else {
          assert x == 23 || x == 24 || x == 25;
        }
      }
    }
  }

  /** A table with a left inverse has no repeats. */
  lemma LeftInverseMeansInjective(m: seq<nat>, inv: seq<nat>)
    requires forall x :: 0 <= x < |m| ==> m[x] < |inv| && inv[m[x]] == x
    ensures Injective(m)
  {
    forall i, j | 0 <= i < j < |m|
      ensures m[i] != m[j]
    {
      assert inv[m[i]] == i && inv[m[j]] == j;
    }
  }

  // --- facts about the wheel set ---

  /** UKW-B swaps letters in pairs and leaves no letter in place. */
  lemma UkwBIsReflector()
    ensures IsInvolution(Wiring(UkwB)) && HasNoFixedPoint(Wiring(UkwB))
  {
    forall x | 0 <= x < |UkwB|
      ensures UkwB[x] < |UkwB| && UkwB[UkwB[x]] == x && UkwB[x] != x
    {
      UkwBAt(x);
    }
  }

  /** The three rotor wirings are permutations of the 26 letters. */
  lemma RotorsArePermutations()
    ensures IsPermutation(Wiring(RotorI))
    ensures IsPermutation(Wiring(RotorII))
    ensures IsPermutation(Wiring(RotorIII))
  {
    forall x | 0 <= x < 26
      ensures RotorI[x] < 26 && RotorIInverse[RotorI[x]] == x
      ensures RotorII[x] < 26 && RotorIIInverse[RotorII[x]] == x
      ensures RotorIII[x] < 26 && RotorIIIInverse[RotorIII[x]] == x
    {
      RotorIAt(x);
      RotorIIAt(x);
      RotorIIIAt(x);
    }
    LeftInverseMeansInjective(RotorI, RotorIInverse);
    LeftInverseMeansInjective(RotorII, RotorIIInverse);
    LeftInverseMeansInjective(RotorIII, RotorIIIInverse);
  }

  /** The identity table is an involution, and so a permutation. */
  lemma IdentityIsInvolution()
    ensures IsInvolution(Wiring(Identity)) && IsPermutation(Wiring(Identity))
  {
    InvolutionIsPermutation(Wiring(Identity));
  }

  /** The historical double step: from A-D-U (left to right) three
      keystrokes give A-D-V, A-E-W, B-F-X; the middle rotor steps on two
      consecutive keystrokes. Positions are listed right to left. */
  method DoubleStepTrace() returns (trace: seq<seq<nat>>)
    ensures trace == [[20, 3, 0], [21, 3, 0], [22, 4, 0], [23, 5, 1]]
  {
    RotorsArePermutations();
    IdentityIsInvolution();
    var right := new Rotor(20, [21], 0, Wiring(RotorIII));
    var middle := new Rotor(3, [4], 0, Wiring(RotorII));
    var left := new Rotor(0, [16], 0, Wiring(RotorI));
    var etw := new Rotor(0, [], 0, Wiring(Identity));
    var mechanism := new RotorMechanism(etw, [right, middle, left], Wiring(UkwB), 26);
    trace := [[right.position, middle.position, left.position]];
    assert mechanism.rotors[0] == right && mechanism.rotors[1] == middle && mechanism.rotors[2] == left;
    KeystrokeFrom(mechanism, [20, 3, 0], [21, 3, 0]);
    trace := trace + [[right.position, middle.position, left.position]];
    KeystrokeFrom(mechanism, [21, 3, 0], [22, 4, 0]);
    trace := trace + [[right.position, middle.position, left.position]];
    KeystrokeFrom(mechanism, [22, 4, 0], [23, 5, 1]);
    trace := trace + [[right.position, middle.position, left.position]];
  }

  /** One keystroke of the wheel set, from `pos` to the expected `next`. */
  method KeystrokeFrom(mechanism: RotorMechanism, pos: seq<nat>, next: seq<nat>)
    requires mechanism.Valid() && |mechanism.rotors| == 3 && mechanism.rotorPositions == 26
    requires mechanism.rotors[0].turnoverPositions == [21]
    requires mechanism.rotors[1].turnoverPositions == [4]
    requires |pos| == 3 && |next| == 3 && pos[0] < 26 && pos[1] < 26 && pos[2] < 26
    requires forall k :: 0 <= k < 3 ==> mechanism.rotors[k].position == pos[k]
    requires next[0] == (pos[0] + 1) % 26
    requires next[1] == if pos[1] == 4 || pos[0] == 21 then (pos[1] + 1) % 26 else pos[1]
    requires next[2] == if pos[1] == 4 then (pos[2] + 1) % 26 else pos[2]
    modifies mechanism.rotors
    ensures mechanism.Valid()
    ensures forall k :: 0 <= k < 3 ==> mechanism.rotors[k].position == next[k]
  {
    mechanism.PositionsAre();
    assert mechanism.Positions() == pos;
    mechanism.SteppedAt(pos, 0);
    mechanism.SteppedAt(pos, 1);
    mechanism.SteppedAt(pos, 2);
    mechanism.Advance();
    mechanism.PositionsAre();
  }
}
