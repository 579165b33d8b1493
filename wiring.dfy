/** A wiring: a fixed table of contacts over the symbols [0, N), looked up
    forwards (indexing) and backwards (a search for the first index holding
    a value). The table is never changed after construction, so a wiring is
    a value. Bijectivity is NOT checked at construction; "is a permutation"
    and "is an involution" are hypotheses of the lemmas that need them. */
module Wirings {
  import opened Wrappers

  /** Largest map a wiring accepts: every index must fit in a byte. */
  const MaxMapSize: nat := 256

  datatype Wiring = Wiring(table: seq<nat>)

  /** Every entry is a contact of the table itself. */
  predicate EntriesInRange(m: seq<nat>)
  {
    forall i :: 0 <= i < |m| ==> m[i] < |m|
  }

  /** What construction guarantees about a wiring. */
  predicate WellFormed(w: Wiring)
  {
    |w.table| <= MaxMapSize && EntriesInRange(w.table)
  }

  /** The constructor's entry loop: the first index at or after `from`
      whose entry is out of range, if any. */
  function FirstOutOfRange(m: seq<nat>, from: nat): (r: Option<nat>)
    requires from <= |m|
    ensures r.None? <==> forall i :: from <= i < |m| ==> m[i] < |m|
    ensures r.Some? ==> from <= r.value < |m| && m[r.value] >= |m|
    decreases |m| - from
  {
    if from == |m| then None
    else if m[from] >= |m| then Some(from)
    else FirstOutOfRange(m, from + 1)
  }

  /** Construction: rejects a map longer than 256 entries or holding an
      entry that is not an index of the map. */
  function New(m: seq<nat>): (r: Option<Wiring>)
    ensures r.Some? <==> |m| <= MaxMapSize && forall i :: 0 <= i < |m| ==> m[i] < |m|
    ensures r.Some? ==> r.value.table == m && WellFormed(r.value)
  {
    if |m| > MaxMapSize then None
    else if FirstOutOfRange(m, 0).Some? then None
    else Some(Wiring(m))
  }

  /** Forward lookup: the contact wired to `x`; always a contact of the table. */
  function Translate(w: Wiring, x: nat): (r: nat)
    requires WellFormed(w) && x < |w.table|
    ensures r < |w.table|
    ensures r == w.table[x]
  {
    w.table[x]
  }

  /** The iterator search `position`: the first index at or after `from`
      holding `y`. */
  function IndexOf(m: seq<nat>, y: nat, from: nat): (r: Option<nat>)
    requires from <= |m|
    ensures r.Some? <==> exists i :: from <= i < |m| && m[i] == y
    ensures r.Some? ==> from <= r.value < |m| && m[r.value] == y
    ensures r.Some? ==> forall j :: from <= j < r.value ==> m[j] != y
    decreases |m| - from
  {
    if from == |m| then None
    else if m[from] == y then Some(from)
    else IndexOf(m, y, from + 1)
  }

  /** Backward lookup: the smallest index whose entry is `y`; None where the
      Rust code panics because no entry is `y`. The index always fits in
      a byte, so the narrowing cast after the search never fails. */
  function TranslateBackwards(w: Wiring, y: nat): (r: Option<nat>)
    requires WellFormed(w)
    ensures r.Some? <==> y in w.table
    ensures r.Some? ==> r.value < |w.table| <= MaxMapSize && w.table[r.value] == y
    ensures r.Some? ==> forall j :: 0 <= j < r.value ==> w.table[j] != y
  {
    IndexOf(w.table, y, 0)
  }

  /** Length as a byte: None (a panic in the Rust code) for a full
      256-entry map, which construction nevertheless accepts. */
  function Len(w: Wiring): (r: Option<nat>)
    ensures r.Some? <==> |w.table| < MaxMapSize
    ensures r.Some? ==> r.value == |w.table|
  {
    if |w.table| < MaxMapSize then Some(|w.table|) else None
  }

  /** No two inputs share an output. */
  predicate Injective(m: seq<nat>)
  {
    forall i, j :: 0 <= i < j < |m| ==> m[i] != m[j]
  }

  /** A constructed wiring with no repeated entry. */
  predicate IsPermutation(w: Wiring)
  {
    WellFormed(w) && Injective(w.table)
  }

  /** A wiring that undoes itself: the shape of a reflector or a plugboard. */
  predicate IsInvolution(w: Wiring)
  {
    WellFormed(w) && forall x :: 0 <= x < |w.table| ==> w.table[w.table[x]] == x
  }

  /** A wiring that sends no contact to itself. */
  predicate HasNoFixedPoint(w: Wiring)
  {
    forall x :: 0 <= x < |w.table| ==> w.table[x] != x
  }

  /** Backward after forward is the identity when the map has no repeats. */
  lemma BackwardsUndoesTranslate(w: Wiring, x: nat)
    requires IsPermutation(w) && x < |w.table|
    ensures TranslateBackwards(w, Translate(w, x)) == Some(x)
  {
    assert w.table[x] in w.table;
  }

  /** Forward after backward is the identity whenever the backward lookup
      succeeds, whether or not the map is a permutation. */
  lemma TranslateUndoesBackwards(w: Wiring, y: nat)
    requires WellFormed(w) && y in w.table
    ensures TranslateBackwards(w, y).Some?
    ensures Translate(w, TranslateBackwards(w, y).value) == y
  {
  }

  /** Without injectivity the backward lookup need not undo the forward one:
      it returns the first of the repeated indices. */
  lemma RepeatsBreakBackwards()
    ensures WellFormed(Wiring([1, 1]))
    ensures Translate(Wiring([1, 1]), 1) == 1
    ensures TranslateBackwards(Wiring([1, 1]), 1) == Some(0)
    ensures TranslateBackwards(Wiring([1, 1]), 0) == None
  {
    assert 0 !in [1, 1];
  }

  /** Construction accepts a 256-entry map, but its length then does not fit
      in a byte: the effective alphabet bound is 255. */
  lemma FullMapAcceptedButLenFails()
    ensures New(seq(256, i => i)).Some?
    ensures Len(New(seq(256, i => i)).value).None?
  {
  }

  // --- Pigeonhole: an injective table over [0, N) reaches every contact. ---

  function Image(m: seq<nat>, k: nat): set<nat>
    requires k <= |m|
  {
    set i | 0 <= i < k :: m[i]
  }

  lemma {:induction false} ImageSize(m: seq<nat>, k: nat)
    requires Injective(m) && k <= |m|
    ensures |Image(m, k)| == k
  {
    if k > 0 {
      ImageSize(m, k - 1);
      assert Image(m, k) == Image(m, k - 1) + {m[k - 1]};
      assert m[k - 1] !in Image(m, k - 1);
    }
  }

  /** The contacts [0, n). */
  function Below(n: nat): (s: set<nat>)
    ensures forall y: nat :: y in s <==> y < n
  {
    if n == 0 then {} else Below(n - 1) + {n - 1}
  }

  lemma {:induction false} BelowSize(n: nat)
    ensures |Below(n)| == n
  {
    if n > 0 {
      var s := Below(n - 1);
      BelowSize(n - 1);
      assert n - 1 !in s;
      assert Below(n) == s + {n - 1};
    }
  }

  lemma SameSizeSubsetIsEqual(a: set<nat>, b: set<nat>)
    requires a <= b && |a| == |b|
    ensures a == b
  {
    assert a * b == a;
    assert |b - a| == 0;
  }

  /** Every contact occurs in a permutation wiring, so its backward lookup
      always succeeds. */
  lemma {:induction false} PermutationIsOnto(w: Wiring, y: nat)
    requires IsPermutation(w) && y < |w.table|
    ensures y in w.table
  {
    var m := w.table;
    ImageSize(m, |m|);
    BelowSize(|m|);
    SameSizeSubsetIsEqual(Image(m, |m|), Below(|m|));
    assert y in Image(m, |m|);
    var i :| 0 <= i < |m| && m[i] == y;
    assert m[i] in m;
  }

  /** An involution has no repeats, so it is a permutation. */
  lemma InvolutionIsPermutation(w: Wiring)
    requires IsInvolution(w)
    ensures IsPermutation(w)
  {
    forall i, j | 0 <= i < j < |w.table|
      ensures w.table[i] != w.table[j]
    {
      assert w.table[w.table[i]] == i && w.table[w.table[j]] == j;
    }
  }
}
