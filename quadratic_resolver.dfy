/** `QuadraticEquationResolver` (lib/resolver/quadratic_resolver.h): the text
    of one equation's solution, and the worker loop that drains the queue into
    the result buffer at each triplet's id. */
module Resolver {
  import opened Types
  import opened IntText
  import opened Queue

  /** The parts of `resolve` that are computed and printed in double
      precision, supplied by the caller: the root -c/b of a linear equation;
      for a != 0, the roots text chosen by the sign of the discriminant
      ("no real roots", "(x)" or "(x1, x2)"); and the extremum -b/(2a) with
      -0.0 normalised to 0. */
  datatype FloatText = FloatText(
    linearRoot: (Int64, Int64) -> string,
    roots: (Int64, Int64, Int64) -> string,
    extremum: (Int64, Int64) -> string)

  /** `"(a, b, c) => "`, each coefficient written by `operator<<`. */
  function Prefix(t: Triplet): string {
    "(" + FormatInt(t.a) + ", " + FormatInt(t.b) + ", " + FormatInt(t.c) + ") => "
  }

  /** What `resolve` writes after the prefix. */
  function Outcome(t: Triplet, fp: FloatText): string {
    if t.a != 0 then fp.roots(t.a, t.b, t.c) + ", Xmin=" + fp.extremum(t.a, t.b)
    else if t.b != 0 then "(" + fp.linearRoot(t.b, t.c) + "), no extremum"
    else if t.c == 0 then "infinite roots, no extremum"
    else "no solution, no extremum"
  }

  /** `resolve`. Converting a coefficient to `double` maps only 0 to 0.0, so
      the tests `a == 0.0`, `b != 0.0`, `c == 0.0` are decided on the integers. */
  function Resolve(t: Triplet, fp: FloatText): (r: string)
    ensures Prefix(t) <= r
  {
    Prefix(t) + Outcome(t, fp)
  }

  /** Every result names its equation first, and the id plays no part. */
  lemma ResolveShape(t: Triplet, fp: FloatText)
    ensures Prefix(t) <= Resolve(t, fp)
    ensures forall id: Int64 :: Resolve(t.(id := id), fp) == Resolve(t, fp)
  {
  }

  predicate EndsWith(s: string, suffix: string) {
    |suffix| <= |s| && s[|s| - |suffix|..] == suffix
  }

  lemma EndsWithAppend(x: string, y: string, suffix: string)
    requires EndsWith(y, suffix)
    ensures EndsWith(x + y, suffix)
  {
    assert (x + y)[|x + y| - |suffix|..] == y[|y| - |suffix|..];
  }

  /** An equation with a == 0 has no extremum, whichever of its three cases
      applies. */
  lemma LinearHasNoExtremum(t: Triplet, fp: FloatText)
    requires t.a == 0
    ensures EndsWith(Resolve(t, fp), ", no extremum")
  {
    var suffix := ", no extremum";
    var rest :=
      if t.b != 0 then "(" + fp.linearRoot(t.b, t.c) + ")"
      else if t.c == 0 then "infinite roots"
      else "no solution";
    assert Outcome(t, fp) == rest + suffix;
    EndsWithAppend(rest, suffix, suffix);
    EndsWithAppend(Prefix(t), Outcome(t, fp), suffix);
  }

  /** The two equations without a root are told apart. */
  lemma ResolveDegenerate(t: Triplet, fp: FloatText)
    requires t.a == 0 && t.b == 0
    ensures t.c == 0 ==> Resolve(t, fp) == Prefix(t) + "infinite roots, no extremum"
    ensures t.c != 0 ==> Resolve(t, fp) == Prefix(t) + "no solution, no extremum"
  {
  }

  /** If a separator occurs in neither front part, it marks the same split. */
  lemma SplitAtSeparator(x: string, y: string, x': string, y': string, sep: char)
    requires sep !in x && sep !in x'
    requires x + [sep] + y == x' + [sep] + y'
    ensures x == x' && y == y'
  {
    var s := x + [sep] + y;
    assert s == x' + [sep] + y';
    assert forall k :: 0 <= k < |x| ==> s[k] == x[k] != sep;
    assert forall k :: 0 <= k < |x'| ==> s[k] == x'[k] != sep;
    assert s[|x|] == sep && s[|x'|] == sep;
    assert |x| == |x'|;
    assert x == s[..|x|] == x';
    assert y == s[|x| + 1..] == y';
  }

  /** The three coefficients can be read back from a result's text, up to
      the first ')', when none of them holds a ',' or a ')'. */
  lemma ReadCoefficients(a: string, b: string, c: string, r: string, a': string, b': string, c': string, r': string)
    requires ',' !in a && ',' !in b && ')' !in a && ')' !in b && ')' !in c
    requires ',' !in a' && ',' !in b' && ')' !in a' && ')' !in b' && ')' !in c'
    requires "(" + a + ", " + b + ", " + c + ") => " + r == "(" + a' + ", " + b' + ", " + c' + ") => " + r'
    ensures a == a' && b == b' && c == c'
  {
    var x, x' := "(" + a + ", " + b + ", " + c, "(" + a' + ", " + b' + ", " + c';
    assert x + ") => " + r == x + [')'] + (" => " + r);
    assert x' + ") => " + r' == x' + [')'] + (" => " + r');
    SplitAtSeparator(x, " => " + r, x', " => " + r', ')');
    var y, y' := " " + b + ", " + c, " " + b' + ", " + c';
    assert x == ("(" + a) + [','] + y;
    assert x' == ("(" + a') + [','] + y';
    SplitAtSeparator("(" + a, y, "(" + a', y', ',');
    assert y == (" " + b) + [','] + (" " + c);
    assert y' == (" " + b') + [','] + (" " + c');
    SplitAtSeparator(" " + b, " " + c, " " + b', " " + c', ',');
    assert a == ("(" + a)[1..] && a' == ("(" + a')[1..];
    assert b == (" " + b)[1..] && b' == (" " + b')[1..];
    assert c == (" " + c)[1..] && c' == (" " + c')[1..];
  }

  /** Two results are equal only for the same equation, whatever the
      floating-point parts print. */
  lemma ResolveIdentifiesEquation(t: Triplet, u: Triplet, fp: FloatText, fp': FloatText)
    requires Resolve(t, fp) == Resolve(u, fp')
    ensures SameEquation(t, u)
  {
    FormatIntHasNoSeparator(t.a);
    FormatIntHasNoSeparator(t.b);
    FormatIntHasNoSeparator(t.c);
    FormatIntHasNoSeparator(u.a);
    FormatIntHasNoSeparator(u.b);
    FormatIntHasNoSeparator(u.c);
    ReadCoefficients(FormatInt(t.a), FormatInt(t.b), FormatInt(t.c), Outcome(t, fp),
                     FormatInt(u.a), FormatInt(u.b), FormatInt(u.c), Outcome(u, fp'));
    FormatIntInjective(t.a, u.a);
    FormatIntInjective(t.b, u.b);
    FormatIntInjective(t.c, u.c);
  }

  /** From the unit tests: all coefficients zero, whatever the id. */
  lemma ResolveExampleInfinite(t: Triplet, fp: FloatText)
    requires t.a == 0 && t.b == 0 && t.c == 0
    ensures Resolve(t, fp) == "(0, 0, 0) => " + "infinite roots, no extremum"
  {
    PrefixExample(t, "0");
    ResolveDegenerate(t, fp);
  }

  /** From the unit tests: only the constant term, 10, non-zero. */
  lemma ResolveExampleNoSolution(t: Triplet, fp: FloatText)
    requires t.a == 0 && t.b == 0 && t.c == 10
    ensures Resolve(t, fp) == "(0, 0, 10) => " + "no solution, no extremum"
  {
    assert FormatNat(10) == FormatNat(1) + [DigitChar(0)];
    PrefixExample(t, "10");
    ResolveDegenerate(t, fp);
  }

  lemma PrefixExample(t: Triplet, c: string)
    requires t.a == 0 && t.b == 0 && FormatInt(t.c) == c
    ensures Prefix(t) == "(0, 0, " + c + ") => "
  {
    assert FormatInt(0) == "0";
  }

  // ---------------------------------------------------------------------------
  // The result buffer

  /** Every id indexes the buffer (`m_resolveStorage[item.id]` is unchecked). */
  predicate IdsWithin(items: seq<Triplet>, size: nat) {
    forall k :: 0 <= k < |items| ==> 0 <= items[k].id < size
  }

  predicate DistinctIds(items: seq<Triplet>) {
    forall k, l :: 0 <= k < l < |items| ==> items[k].id != items[l].id
  }

  /** The buffer after the items are resolved one after another, each result
      written at its item's id. */
  function ApplyWrites(buffer: seq<string>, items: seq<Triplet>, fp: FloatText): (r: seq<string>)
    requires IdsWithin(items, |buffer|)
    ensures |r| == |buffer|
    decreases |items|
  {
    if items == [] then buffer
    else ApplyWrites(buffer[items[0].id := Resolve(items[0], fp)], items[1..], fp)
  }

  /** With distinct ids, slot `j` ends up holding the result of the item whose
      id is `j`, and is left alone when there is none. */
  lemma {:induction false} ApplyWritesAt(buffer: seq<string>, items: seq<Triplet>, fp: FloatText, j: int)
    requires IdsWithin(items, |buffer|) && DistinctIds(items) && 0 <= j < |buffer|
    ensures (forall k :: 0 <= k < |items| ==> items[k].id != j) ==> ApplyWrites(buffer, items, fp)[j] == buffer[j]
    ensures forall k :: 0 <= k < |items| && items[k].id == j ==> ApplyWrites(buffer, items, fp)[j] == Resolve(items[k], fp)
    decreases |items|
  {
    if items != [] {
      var next := buffer[items[0].id := Resolve(items[0], fp)];
      ApplyWritesAt(next, items[1..], fp, j);
      forall k | 1 <= k < |items| ensures items[1..][k - 1] == items[k] { }
    }
  }

  /** Dense ids in order: slot `i` holds the result of item `i`. */
  lemma ApplyWritesDense(buffer: seq<string>, items: seq<Triplet>, fp: FloatText)
    requires |items| == |buffer|
    requires forall k :: 0 <= k < |items| ==> items[k].id == k
    ensures IdsWithin(items, |buffer|)
    ensures forall i :: 0 <= i < |buffer| ==> ApplyWrites(buffer, items, fp)[i] == Resolve(items[i], fp)
  {
    forall i | 0 <= i < |buffer|
      ensures ApplyWrites(buffer, items, fp)[i] == Resolve(items[i], fp)
    {
      ApplyWritesAt(buffer, items, fp, i);
    }
  }

  /** Which worker takes which item, and so the order of the writes, does not
      matter: any order of the same items with distinct ids fills the buffer
      the same way. */
  lemma ApplyWritesOrderIrrelevant(buffer: seq<string>, items: seq<Triplet>, other: seq<Triplet>, fp: FloatText)
    requires IdsWithin(items, |buffer|) && DistinctIds(items)
    requires IdsWithin(other, |buffer|) && DistinctIds(other)
    requires multiset(items) == multiset(other)
    ensures ApplyWrites(buffer, items, fp) == ApplyWrites(buffer, other, fp)
  {
    var r, r' := ApplyWrites(buffer, items, fp), ApplyWrites(buffer, other, fp);
    forall j | 0 <= j < |buffer|
      ensures r[j] == r'[j]
    {
      ApplyWritesAt(buffer, items, fp, j);
      ApplyWritesAt(buffer, other, fp, j);
      if l :| 0 <= l < |other| && other[l].id == j {
        assert other[l] in multiset(items);
        var k :| 0 <= k < |items| && items[k] == other[l];
      } else {
        forall k | 0 <= k < |items|
          ensures items[k].id != j
        {
          assert items[k] in multiset(other);
          var l :| 0 <= l < |other| && other[l] == items[k];
        }
      }
    }
  }

  // ---------------------------------------------------------------------------
  // The worker

  class QuadraticEquationResolver {
    const queue: BlockingQueue<Triplet>
    const storage: array<string>

    constructor (queue: BlockingQueue<Triplet>, storage: array<string>)
      ensures this.queue == queue && this.storage == storage
    {
      this.queue := queue;
      this.storage := storage;
    }

    /** `operator()`: pop until the queue reports stopped and empty, writing
        each item's result at its id and nowhere else. Run after `shutdown`,
        so that `waitPop` never waits. */
    method Run(fp: FloatText)
      requires queue.stopped
      requires IdsWithin(queue.items, storage.Length)
      modifies queue, storage
      ensures queue.State() == QueueState([], true)
      ensures storage[..] == ApplyWrites(old(storage[..]), old(queue.items), fp)
    {
      while true
        invariant queue.stopped && IdsWithin(queue.items, storage.Length)
        invariant ApplyWrites(storage[..], queue.items, fp) == ApplyWrites(old(storage[..]), old(queue.items), fp)
        decreases |queue.items|
      {
        var popped, item := queue.WaitPop(DefaultTriplet);
        if !popped {
          break;
        }
        storage[item.id] := Resolve(item, fp);
      }
    }
  }
}
