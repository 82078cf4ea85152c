/** Machine integer ranges, an Option type and the duplicate-free list of
    resolutions that both remapping tools keep. */
module Base {

  /** The unsigned machine integers used by the bitstream and the tools.
      They are subset types of `int`: intermediate arithmetic is unbounded,
      and every value stored into a field must lie in range. */
  type u8 = x: int | 0 <= x < 0x100
  type u16 = x: int | 0 <= x < 0x1_0000
  type u32 = x: int | 0 <= x < 0x1_0000_0000

  const U16_MAX: int := 0xFFFF

  datatype Option<+T> = None | Some(value: T)

  /** No element occurs twice in `xs`. */
  predicate Distinct<T(==)>(xs: seq<T>)
  {
    forall i, j :: 0 <= i < j < |xs| ==> xs[i] != xs[j]
  }

  /** The "new resolution encountered" step: `x` is appended to the list of
      seen values exactly when it is not there yet. */
  function Note<T(==)>(seen: seq<T>, x: T): (r: seq<T>)
    ensures x in r
    ensures x in seen ==> r == seen
    ensures x !in seen ==> r == seen + [x]
    ensures Distinct(seen) ==> Distinct(r)
  {
    if x in seen then seen else seen + [x]
  }

  /** The seen list after noting every element of `xs` in order. */
  function NoteAll<T(==)>(seen: seq<T>, xs: seq<T>): seq<T>
    decreases |xs|
  {
    if xs == [] then seen else Note(NoteAll(seen, xs[..|xs| - 1]), xs[|xs| - 1])
  }

  lemma NoteAllSnoc<T>(seen: seq<T>, xs: seq<T>, x: T)
    ensures NoteAll(seen, xs + [x]) == Note(NoteAll(seen, xs), x)
  {
    assert (xs + [x])[..|xs + [x]| - 1] == xs;
  }

  /** After noting `xs`, the list holds exactly what it held before and the
      elements of `xs`, and it is still free of duplicates. */
  lemma {:induction false} NoteAllContents<T>(seen: seq<T>, xs: seq<T>)
    ensures forall y :: y in NoteAll(seen, xs) <==> y in seen || y in xs
    ensures Distinct(seen) ==> Distinct(NoteAll(seen, xs))
    decreases |xs|
  {
    if xs != [] {
      var init := xs[..|xs| - 1];
      NoteAllContents(seen, init);
      assert xs == init + [xs[|xs| - 1]];
    }
  }
}
