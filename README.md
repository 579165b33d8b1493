# Enigma rotor machine — a verified Dafny model

This project models the enciphering engine of a Rust simulator of the
Enigma rotor cipher machine. It has four parts:

- **Wiring** (`Wirings`, `wiring.dfy`) is an immutable table over the
  contacts `[0, N)`. It has a forward lookup, which is indexing, and a
  backward lookup, which is a first-match search.
- **Rotor** (`Rotors`, `rotor.dfy`) is a class. Its position is mutable.
  Its ring setting, turnover (notch) positions and wiring are fixed. It
  offers a modular advance, a notch test, and ring-shifted translation in
  both directions.
- **Rotor mechanism** (`RotorMechanisms`, `rotor_mechanism.dfy`) is a class
  holding an entry wheel, at least three rotors ordered right to left, and
  a reflector. It implements two things:
  - the stepping rule, including the double-step anomaly;
  - the reflected signal path: entry wheel, rotors right to left, each in
    its own frame, then the reflector, the rotors left to right, and the
    entry wheel again.
- **Enigma** (`Enigmas`, `enigma.dfy`) is the facade. Its constructor checks
  that all sizes agree and builds the entry wheel. Each keystroke checks the
  symbol, steps the rotors once, and enciphers plugboard, then mechanism,
  then plugboard.

`fixtures.dfy` holds the wheel set that the command-line front end builds:
rotors I, II and III, the UKW-B reflector, and identity entry wheel and
plugboard. It proves their table properties and replays the historical
double step A-D-U, A-D-V, A-E-W, B-F-X. `wrappers.dfy` holds the `Option`
type.

Modelling choices:

- Every `assert!` or `panic!` of the Rust code becomes one of two things:
  - a precondition, for construction checks and for out-of-range arguments;
  - a `None` result, for a failed backward lookup and for a length that does
    not fit in a byte.
- `Enigma.Translate` returns `None` for a rejected symbol, and checks it
  before anything moves. A failed backward lookup after the step also
  returns `None`, with the rotors already stepped, as in the Rust code.
- Stepping is specified by the function `Stepped` on the position vector.
  Every rotor's decision in it reads the positions from before the
  keystroke. `Advance` is proved to produce exactly that.
- The signal path is specified by `SignalPath`, which is built from
  `ThroughRotorsRToL` and `ThroughRotorsLToR`. `Translate` is proved equal
  to it. Reciprocity and the absence of self-encipherment are proved about
  `SignalPath`, under the hypotheses the code does not check: permutation
  wheels, an involutive reflector and an involutive plugboard.

The code adds the ring setting on entry into the wiring (`rotor.rs:70`,
`:81`) and subtracts it on exit (`rotor.rs:72`, `:83`), the reverse of the
physical machine's convention; the model follows the code. The mechanism and facade
call `num_positions()`, which the rotor does not define. It is read as
`rotor_positions()`, the wiring length.

## Model

| member | source | states |
|---|---|---|
| Wirings.New | src/machine/wiring.rs:10-23 | Construction succeeds exactly when the map has at most 256 entries and every entry is an index of the map; the wiring then holds the map unchanged. |
| Wirings.FirstOutOfRange | src/machine/wiring.rs:15-18 | The constructor's entry scan finds nothing exactly when every entry from `from` on is in range; a found index holds an out-of-range entry. |
| Wirings.Translate | src/machine/wiring.rs:26-28 | The forward lookup of a contact x < N is `map[x]`, and is again a contact below N. |
| Wirings.IndexOf | src/machine/wiring.rs:32 | The iterator search finds an index exactly when the value occurs at or after `from`; the index holds the value and no earlier one does. |
| Wirings.TranslateBackwards | src/machine/wiring.rs:31-46 | The backward lookup succeeds exactly when y occurs in the map; it returns the smallest index holding y, which is below N ≤ 256, so the byte cast never fails. |
| Wirings.Len | src/machine/wiring.rs:49-57 | The length is returned exactly when it is below 256; a 256-entry map makes the byte cast fail. |
| Wirings.BackwardsUndoesTranslate | src/machine/wiring.rs:26-37 | For a map without repeats, the backward lookup of `map[x]` is x. |
| Wirings.TranslateUndoesBackwards | src/machine/wiring.rs:26-37 | Whenever y occurs in the map, the forward lookup of its backward lookup is y, repeats or not. |
| Wirings.RepeatsBreakBackwards | src/machine/wiring.rs:19 | Because bijectivity is not checked, the map [1, 1] is accepted; its backward lookup of 1 gives 0, not 1, and of 0 fails. |
| Wirings.FullMapAcceptedButLenFails | src/machine/wiring.rs:12 | A 256-entry map is accepted by construction, but its length does not fit in a byte, so the usable alphabet is at most 255. |
| Wirings.PermutationIsOnto | src/machine/wiring.rs:31-37 | In a map without repeats every contact occurs, so the backward lookup never fails. |
| Wirings.InvolutionIsPermutation | src/machine/wiring.rs:19 | A self-inverse map (reflector, plugboard) has no repeats. |
| Rotors.ShiftIn | src/machine/rotor.rs:70 | Shifting a contact forward by a ring setting or a position, as `(c + g) % n`, gives a contact below n again. |
| Rotors.ShiftOut | src/machine/rotor.rs:72 | Shifting a contact back by g < n, as `(c + n - g) % n`, gives a contact below n again; `ShiftBack` proves it undoes `ShiftIn`. |
| Rotors.ShiftBack | src/machine/rotor.rs:70-72 | Shifting a contact into a frame and back by the same amount, as the code writes both shifts, returns the contact, in either order. |
| Rotors.Rotor.constructor | src/machine/rotor.rs:15-34 | A rotor is built only when its position, its ring setting and every turnover position are contacts of a wiring whose length fits in a byte; it holds the given values. |
| Rotors.Rotor.RotorPositions | src/machine/rotor.rs:87-89 | The number of positions is the wiring length, which is below 256. |
| Rotors.Rotor.Advance | src/machine/rotor.rs:37-39 | Advancing moves the position to (position + 1) mod N and keeps the rotor valid; only the position changes. |
| Rotors.Rotor.SetRotorPosition | src/machine/rotor.rs:42-46 | A manual setting is accepted only below N, after which the rotor reads back that position. |
| Rotors.Rotor.GetRotorPosition | src/machine/rotor.rs:49-51 | Reading the position gives the current position, a contact below N. |
| Rotors.Rotor.IsNotchPositioned | src/machine/rotor.rs:54-62 | The notch test is true exactly when the position is one of the turnover positions. |
| Rotors.Rotor.TranslateRToL | src/machine/rotor.rs:65-73 | The right-to-left translation of a contact is again a contact. |
| Rotors.Rotor.TranslateLToR | src/machine/rotor.rs:76-84 | The left-to-right translation fails exactly when no wire ends at the ring-shifted contact; otherwise it gives a contact. |
| Rotors.RingZeroIsPlainWiring | src/machine/rotor.rs:70-72 | With ring setting 0, the right-to-left translation is the forward lookup and the left-to-right translation is the backward lookup. |
| Rotors.RotorRoundTrip | src/machine/rotor.rs:65-84 | For a permutation wiring, left-to-right undoes right-to-left for every ring setting. |
| Rotors.RotorRoundTripBackwards | src/machine/rotor.rs:65-84 | For a permutation wiring, left-to-right never fails and right-to-left undoes it, for every ring setting. |
| RotorMechanisms.FrameShiftRoundTrip | src/machine/rotor_mechanism.rs:71-79 | A rotor's pass in its frame at position p, right to left, is undone by the left-to-right pass at the same position. |
| RotorMechanisms.FrameShiftRoundTripBackwards | src/machine/rotor_mechanism.rs:88-96 | The left-to-right pass at position p never fails on a permutation wiring, and the right-to-left pass undoes it. |
| RotorMechanisms.RotorMechanism.constructor | src/machine/rotor_mechanism.rs:16-33 | A mechanism is built only with at least three rotors, each with the mechanism's number of positions; it holds the given parts and is valid. |
| RotorMechanisms.RotorMechanism.Stepped | src/machine/rotor_mechanism.rs:35-58 | The positions after one keystroke, all decided from the positions before it: one per rotor, the rightmost always one step on, every rotor whose right neighbour stood at a notch carried one step, and the leftmost moved only by such a carry, never by its own notch. |
| RotorMechanisms.RotorMechanism.Advance | src/machine/rotor_mechanism.rs:35-58 | One keystroke sets every rotor position to `Stepped` of the positions before the call, and leaves the entry wheel and every fixed setting alone. |
| RotorMechanisms.RotorMechanism.AdvanceMiddleRotors | src/machine/rotor_mechanism.rs:42-54 | The descending loop steps each middle rotor as `Stepped` says, reading only rotors it has not moved, and leaves the leftmost and rightmost rotors alone. |
| RotorMechanisms.RotorMechanism.SteppedAt | src/machine/rotor_mechanism.rs:36-57 | The stepping rule, rotor by rotor: the rightmost always steps; the leftmost steps iff its right neighbour was at a notch; a middle rotor steps iff it or its right neighbour was at a notch. |
| RotorMechanisms.RotorMechanism.MovesIffTriggered | src/machine/rotor_mechanism.rs:36-57 | With at least two positions, a rotor's position changes on a keystroke exactly when the stepping rule triggers it. |
| RotorMechanisms.RotorMechanism.StepMovesAtMostOne | src/machine/rotor_mechanism.rs:35-58 | Every rotor moves by zero or one position and stays a contact. |
| RotorMechanisms.RotorMechanism.DoubleStep | src/machine/rotor_mechanism.rs:38-53 | A middle rotor at its own notch steps, and its left neighbour with it, even when its right neighbour is not at a notch. |
| RotorMechanisms.RotorMechanism.MiddleStepsOnConsecutiveKeystrokes | src/machine/rotor_mechanism.rs:38-53 | When a right neighbour's notch carries a middle rotor onto its own notch, the middle rotor steps again on the next keystroke, together with its left neighbour. |
| RotorMechanisms.RotorMechanism.EnterRotor | src/machine/rotor_mechanism.rs:71-79 | One rotor's right-to-left pass in its frame yields a contact. |
| RotorMechanisms.RotorMechanism.ExitRotor | src/machine/rotor_mechanism.rs:88-96 | One rotor's left-to-right pass yields a contact when its backward lookup succeeds. |
| RotorMechanisms.RotorMechanism.ThroughRotorsRToL | src/machine/rotor_mechanism.rs:69-80 | The right-to-left pass through rotors 0..k-1 yields a contact. |
| RotorMechanisms.RotorMechanism.ThroughRotorsLToR | src/machine/rotor_mechanism.rs:86-97 | The left-to-right pass through rotors k-1..0 yields a contact unless a lookup fails. |
| RotorMechanisms.RotorMechanism.SignalPath | src/machine/rotor_mechanism.rs:61-101 | The full reflected path yields a contact of the alphabet unless a lookup fails. |
| RotorMechanisms.RotorMechanism.Translate | src/machine/rotor_mechanism.rs:61-101 | Translation computes exactly `SignalPath` at the current positions and changes nothing; its result is a contact. |
| RotorMechanisms.RotorMechanism.PassRightToLeft | src/machine/rotor_mechanism.rs:68-80 | The first loop, shift in, wiring, shift out for each rotor in turn, computes the right-to-left pass. |
| RotorMechanisms.RotorMechanism.PassLeftToRight | src/machine/rotor_mechanism.rs:85-97 | The second loop computes the left-to-right pass, leftmost rotor first, failing with the first failed lookup. |
| RotorMechanisms.RotorMechanism.ExitUndoesEnter | src/machine/rotor_mechanism.rs:71-96 | With permutation wheels, a rotor's left-to-right pass undoes its right-to-left pass at any position. |
| RotorMechanisms.RotorMechanism.EnterUndoesExit | src/machine/rotor_mechanism.rs:71-96 | With permutation wheels, a rotor's left-to-right pass never fails and its right-to-left pass undoes it. |
| RotorMechanisms.RotorMechanism.BackUndoesForward | src/machine/rotor_mechanism.rs:69-97 | The left-to-right pass through k rotors undoes the right-to-left pass through them. |
| RotorMechanisms.RotorMechanism.ForwardUndoesBack | src/machine/rotor_mechanism.rs:69-97 | The left-to-right pass through k rotors never fails, and the right-to-left pass undoes it. |
| RotorMechanisms.RotorMechanism.SignalPathIsInvolution | src/machine/rotor_mechanism.rs:61-101 | At fixed positions, with permutation wheels and an involutive reflector, the path never fails and applied twice returns the input. |
| RotorMechanisms.RotorMechanism.SignalPathHasNoFixedPoint | src/machine/rotor_mechanism.rs:61-101 | With a reflector that also has no fixed point, no contact is sent to itself. |
| Enigmas.Enigma.constructor | src/lib.rs:15-44 | A machine is built only when the entry-wheel, reflector and plugboard lengths fit in a byte and agree, every rotor has that many positions and there are at least three rotors; the entry wheel is fresh, at position 0, with ring 0 and no turnover, and the alphabet size is the shared length. |
| Enigmas.Enigma.Encipher | src/lib.rs:53-60 | Plugboard, mechanism path and plugboard again yield a symbol of the alphabet unless a lookup fails. |
| Enigmas.Enigma.Translate | src/lib.rs:47-61 | A symbol outside the alphabet is rejected with nothing moved; otherwise the rotors step exactly once, and the result is `Encipher` at the stepped positions. |
| Enigmas.Enigma.EncipherIsInvolution | src/lib.rs:53-60 | At fixed positions, with an involutive plugboard and the mechanism hypotheses, enciphering never fails and enciphering the output returns the input. |
| Enigmas.Enigma.NoSelfEncipherment | src/lib.rs:53-60 | With a reflector without fixed point, no symbol enciphers to itself. |
| Enigmas.Enigma.Reciprocity | src/lib.rs:47-61 | One configuration, after a keystroke from positions `pos`: if x enciphers to y at the stepped positions, y enciphers to x there, and the stepped positions are contacts. |
| Fixtures.UkwBIsReflector | src/main.rs:44-46 | The UKW-B table is an involution with no fixed point. |
| Fixtures.RotorsArePermutations | src/main.rs:26-39 | The wirings of rotors I, II and III are permutations. |
| Fixtures.IdentityIsInvolution | src/main.rs:41-42 | The identity entry-wheel and plugboard table is an involution and a permutation. |
| Fixtures.DoubleStepTrace | src/machine/rotor_mechanism.rs:35-58 | Rotors III, II, I at U, D, A step through V-D-A, W-E-A and X-F-B on three keystrokes: the middle rotor steps twice in a row. |

## Left out

- `src/main.rs` is not modelled: the input loop, the exit word, trimming and upper-casing, character checks, printing and letter conversion are text input and output. Only its wheel tables are used, as fixtures.
- Panic messages are left out; each panic is a precondition or a `None` result.
- Rotors.Rotor.TranslateRToL: the translations, and everything built on them, require N ≤ 128. Byte overflow of the sums `input + ring`, `out + N - ring` and `contact + position` (up to 2N - 1) is not modelled.
- RotorMechanisms.RotorMechanism.Translate: requires the entry wheel and reflector to have the mechanism's size. The mechanism constructor does not check this; the machine constructor does. It requires the input to be a contact instead of modelling the input panic as an error result.
- RotorMechanisms.RotorMechanism.constructor: also requires the rotors to be distinct objects, and the entry wheel not to be one of them. Rust ownership of the rotor vector guarantees this.
- Wirings.New: bijectivity is not checked, as in the code. "Is a permutation" and "is an involution" are hypotheses of the lemmas that need them.
- The commented-out API stubs at the end of `src/lib.rs` are not modelled; they have no behaviour.
- No end-to-end ciphertext vector is proved; the fixtures cover the tables and the stepping sequence.
