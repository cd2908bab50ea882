/** The plain data records shared by the parser, the queue and the resolvers
    (lib/utils/types/types.h and lib/utils/constants/constants.h). */
module Types {

  /** The range of `int64_t`. */
  predicate InInt64(n: int) {
    -0x8000_0000_0000_0000 <= n <= 0x7FFF_FFFF_FFFF_FFFF
  }

  /** `int64_t`. */
  type Int64 = x: int | InInt64(x)

  /** `uint32_t`. */
  type UInt32 = x: int | 0 <= x <= 0xFFFF_FFFF

  /** The id a triplet carries until the orchestrator numbers it. */
  const INVALID_TRIPLET_ID: Int64 := -1

  /** Coefficients of a x^2 + b x + c = 0, plus the index of the result slot. */
  datatype Triplet = Triplet(a: Int64, b: Int64, c: Int64, id: Int64)

  /** `Triplet{}`: every coefficient zero, id not yet assigned. */
  const DefaultTriplet: Triplet := Triplet(0, 0, 0, INVALID_TRIPLET_ID)

  /** `Triplet::operator==`: the coefficients decide, the id does not. */
  predicate SameEquation(t: Triplet, u: Triplet): (r: bool)
    ensures r <==> t.(id := u.id) == u
  {
    t.a == u.a && t.b == u.b && t.c == u.c
  }

  /** The parsed command line: the valid triplets in argument order. */
  datatype CliArgs = CliArgs(triplets: seq<Triplet>)

  /** `CliArgs{}`. */
  const DefaultCliArgs: CliArgs := CliArgs([])

  lemma DefaultsAreEmpty()
    ensures DefaultTriplet.a == 0 && DefaultTriplet.b == 0 && DefaultTriplet.c == 0
    ensures DefaultTriplet.id == -1
    ensures DefaultCliArgs.triplets == []
  {
  }

  /** `operator==` agrees with structural equality once the ids are erased. */
  lemma SameEquationIgnoresId(t: Triplet, u: Triplet)
    ensures SameEquation(t, u) <==> t.(id := 0) == u.(id := 0)
    ensures forall id: Int64 :: SameEquation(t, t.(id := id))
  {
    if t.(id := 0) == u.(id := 0) {
      assert t.(id := 0).a == u.(id := 0).a;
      assert t.(id := 0).b == u.(id := 0).b;
      assert t.(id := 0).c == u.(id := 0).c;
    }
  }

  /** `operator==` is an equivalence relation. */
  lemma SameEquationIsEquivalence()
    ensures forall t :: SameEquation(t, t)
    ensures forall t, u :: SameEquation(t, u) ==> SameEquation(u, t)
    ensures forall t, u, v :: SameEquation(t, u) && SameEquation(u, v) ==> SameEquation(t, v)
  {
  }
}
