/**
 The key orders of the `std::map`s that are checkpointed: `std::less` on
 `uint64_t` and on `std::string`. A map is iterated, and so serialised, in
 ascending order of its keys under these.
 */
module Orders {
  import opened Words

  /** `less` orders every two distinct values and nothing else, as `std::map` requires. */
  ghost predicate StrictTotalOrder<K(!new)>(less: (K, K) -> bool)
  {
    && (forall a :: !less(a, a))
    && (forall a, b, c :: less(a, b) && less(b, c) ==> less(a, c))
    && (forall a, b :: a != b ==> less(a, b) || less(b, a))
  }

  function U64Less(a: u64, b: u64): bool
  {
    a < b
  }

  lemma U64LessIsStrictTotal()
    ensures StrictTotalOrder(U64Less)
  {
  }

  /**
   `std::string`'s `operator<`: the first differing character decides and a
   proper prefix comes first. Dafny characters are Unicode scalar values while
   `std::string` compares bytes as `unsigned char`; the two orders agree on
   names encoded in UTF-8.
   */
  function StrLess(a: string, b: string): (r: bool)
    ensures r ==> b != []
    ensures a == [] ==> (r <==> b != [])
  {
    if a == [] then b != []
    else if b == [] then false
    else if a[0] != b[0] then a[0] < b[0]
    else StrLess(a[1..], b[1..])
  }

  lemma {:induction false} StrLessIrreflexive(a: string)
    ensures !StrLess(a, a)
  {
    if a != [] {
      StrLessIrreflexive(a[1..]);
    }
  }

  lemma {:induction false} StrLessTransitive(a: string, b: string, c: string)
    requires StrLess(a, b) && StrLess(b, c)
    ensures StrLess(a, c)
  {
    if a != [] && a[0] == b[0] && b[0] == c[0] {
      StrLessTransitive(a[1..], b[1..], c[1..]);
    }
  }

  lemma {:induction false} StrLessTotal(a: string, b: string)
    requires a != b
    ensures StrLess(a, b) || StrLess(b, a)
  {
    if a != [] && b != [] && a[0] == b[0] {
      assert a == [a[0]] + a[1..] && b == [b[0]] + b[1..];
      StrLessTotal(a[1..], b[1..]);
    }
  }

  lemma StrLessIsStrictTotal()
    ensures StrictTotalOrder(StrLess)
  {
    forall a ensures !StrLess(a, a) {
      StrLessIrreflexive(a);
    }
    forall a, b, c | StrLess(a, b) && StrLess(b, c) ensures StrLess(a, c) {
      StrLessTransitive(a, b, c);
    }
    forall a, b | a != b ensures StrLess(a, b) || StrLess(b, a) {
      StrLessTotal(a, b);
    }
  }
}
