/** The `Bigram` class of main.py: an immutable composite key with
    structural equality, used as the key of the counting dictionary.

    main.py declares the constructor as `(bigram, position)` but calls it
    as `Bigram(n + 1, text)`.  The fields therefore hold swapped contents,
    and this model keeps the source's field names with the contents the
    program actually stores in them:
      - `bigram` holds the 1-based position (an integer),
      - `position` holds the two-character text. */
module BigramKeys {

  datatype Bigram = Bigram(bigram: int, position: string)

  /** `Bigram.__eq__`: the pairs (bigram, position) of the two keys are equal.
      This is exactly Dafny's structural equality on the datatype, which is
      why the datatype can serve as a map key in place of the Python object. */
  function Eq(a: Bigram, b: Bigram): (r: bool)
    ensures r <==> a == b
  {
    (a.bigram, a.position) == (b.bigram, b.position)
  }

  /** `Bigram.__ne__`: the negation of `__eq__`. */
  function Ne(a: Bigram, b: Bigram): (r: bool)
    ensures r <==> a != b
  {
    !Eq(a, b)
  }

  /** The tuple that `Bigram.__hash__` hands to Python's `hash`; the hash
      value itself is not modelled. */
  function HashKey(b: Bigram): (int, string)
  {
    (b.bigram, b.position)
  }

  /** Hashing and equality agree: equal keys are hashed from equal tuples,
      and keys hashed from equal tuples are equal. */
  lemma HashAgreesWithEq(a: Bigram, b: Bigram)
    ensures Eq(a, b) ==> HashKey(a) == HashKey(b)
    ensures HashKey(a) == HashKey(b) ==> Eq(a, b)
  {
  }
}
