/** `CliParser` (lib/cli/cli_parser.cpp): turns `argv` into the list of valid
    coefficient triplets, reporting each rejected group on a diagnostic line.

    `argv` is a sequence of strings that includes the program name at index 0,
    so `argc` is `|argv|`. A thrown `std::invalid_argument` becomes a `Failure`
    carrying its message; the lines printed to stdout are returned as `log`. */
module CliParser {
  import opened Wrappers
  import opened Types
  import opened IntText

  const MISSING_ARGUMENTS: string := "Invalid input: missing command line arguments"
  const NO_VALID_PARAMETERS: string := "Invalid input: no valid parameters"
  const BAD_PARAMETER_COUNT: string := "Invalid input: parameter count must be a multiple of 3!"
  const BAD_TRIPLET: string := "Invalid input: failed to parse triplet"

  // ---------------------------------------------------------------------------
  // Specification

  /** What `_parseTriplet` makes of one complete group of three strings. */
  function GroupTriplet(g: seq<string>): (r: Option<Triplet>)
    requires |g| == 3
    ensures r.Some? <==> ParseInt64(g[0]).Some? && ParseInt64(g[1]).Some? && ParseInt64(g[2]).Some?
    ensures r.Some? ==> r.value.id == INVALID_TRIPLET_ID
    ensures r.Some? ==> Some(r.value.a) == ParseInt64(g[0]) && Some(r.value.b) == ParseInt64(g[1])
                        && Some(r.value.c) == ParseInt64(g[2])
  {
    match (ParseInt64(g[0]), ParseInt64(g[1]), ParseInt64(g[2]))
    case (Some(a), Some(b), Some(c)) => Some(Triplet(a, b, c, INVALID_TRIPLET_ID))
    case _ => None
  }

  /** The `k`-th field of a group, or "" where an incomplete group has none
      (the default-constructed `string_view` in `visited`). */
  function Field(fields: seq<string>, k: nat): string {
    if k < |fields| then fields[k] else ""
  }

  /** The fields joined by ',' in order. */
  function Joined(fields: seq<string>): string {
    if fields == [] then ""
    else if |fields| == 1 then fields[0]
    else Joined(fields[..|fields| - 1]) + "," + fields[|fields| - 1]
  }

  /** The line `_processInvalidTriplet` prints for a rejected group. */
  function DiagnosticLine(fields: seq<string>, message: string): (line: string)
    requires |fields| <= 3
    ensures line == "(" + Field(fields, 0) + "," + Field(fields, 1) + "," + Field(fields, 2) + ") => " + message
  {
    var padded := [Field(fields, 0), Field(fields, 1), Field(fields, 2)];
    assert Joined(padded[..2]) == padded[0] + "," + padded[1] by {
      assert padded[..2][..1] == [padded[0]];
    }
    "(" + Joined(padded) + ") => " + message
  }

  /** The command-line arguments proper: `argv[1..argc)`, empty when `argc` is 0. */
  function Arguments(argv: seq<string>): seq<string> {
    if |argv| == 0 then [] else argv[1..]
  }

  /** The triplets of the valid complete groups of `args`, in order. */
  function ValidTriplets(args: seq<string>): (r: seq<Triplet>)
    ensures |r| <= |args| / 3
    ensures forall k :: 0 <= k < |r| ==> r[k].id == INVALID_TRIPLET_ID
  {
    if |args| < 3 then []
    else
      var head := match GroupTriplet(args[..3]) case Some(t) => [t] case None => [];
      head + ValidTriplets(args[3..])
  }

  /** The diagnostic lines for the groups of `args`, in order: one per invalid
      complete group, and one for an incomplete trailing group, which ends the scan. */
  function Diagnostics(args: seq<string>): (r: seq<string>)
    ensures |r| <= (|args| + 2) / 3
  {
    if |args| == 0 then []
    else if |args| < 3 then [DiagnosticLine(args, BAD_PARAMETER_COUNT)]
    else
      var head := if GroupTriplet(args[..3]).None? then [DiagnosticLine(args[..3], BAD_TRIPLET)] else [];
      head + Diagnostics(args[3..])
  }

  /** The outcome of `CliParser::parse`. */
  function ParseResult(argv: seq<string>): (r: Result<CliArgs, string>)
    ensures r.Failure? ==> r.error == MISSING_ARGUMENTS || r.error == NO_VALID_PARAMETERS
    ensures r.Success? ==> r.value.triplets != [] && |argv| >= 4
  {
    if |argv| == 1 then Failure(MISSING_ARGUMENTS)
    else if ValidTriplets(Arguments(argv)) == [] then Failure(NO_VALID_PARAMETERS)
    else Success(CliArgs(ValidTriplets(Arguments(argv))))
  }

  /** The lines `CliParser::parse` prints before it returns or throws. */
  function ParseLog(argv: seq<string>): (r: seq<string>)
    ensures |r| <= (|argv| + 1) / 3
  {
    if |argv| == 1 then [] else Diagnostics(Arguments(argv))
  }

  // ---------------------------------------------------------------------------
  // The parser

  /** `CliParser::parse`. */
  method Parse(argv: seq<string>) returns (r: Result<CliArgs, string>, log: seq<string>)
    ensures r == ParseResult(argv) && log == ParseLog(argv)
  {
    var argsLen := |argv| - 1;
    if argsLen == 0 {
      return Failure(MISSING_ARGUMENTS), [];
    }
    var triplets: seq<Triplet> := [];
    log := [];
    var i := 1;
    while i < |argv|
      invariant 1 <= i && (|argv| > 0 ==> i <= |argv|)
      invariant ScanInvariant(argv, i, triplets, log)
    {
      if i + 2 >= |argv| {
        var line := ProcessInvalidTriplet(argv, i, |argv|, BAD_PARAMETER_COUNT);
        IncompleteGroupStep(argv, i, triplets, log);
        log := log + [line];
        i := |argv|;
        break;
      }
      var triplet := ParseTriplet(argv, i);
      GroupStep(argv, i, triplets, log);
      if triplet.Some? {
        triplets := triplets + [triplet.value];
        i := i + 3;
        continue;
      }
      var line := ProcessInvalidTriplet(argv, i, i + 3, BAD_TRIPLET);
      log := log + [line];
      i := i + 3;
    }
    ScanFinished(argv, i, triplets, log);
    if triplets == [] {
      return Failure(NO_VALID_PARAMETERS), log;
    }
    return Success(CliArgs(triplets)), log;
  }

  /** The arguments from index `i` on that the loop of `parse` has not looked at yet. */
  function Unscanned(argv: seq<string>, i: nat): seq<string> {
    if i < |argv| then argv[i..] else []
  }

  /** What the loop of `parse` has produced before looking at index `i`:
      together with what the rest yields, it is the whole outcome. */
  predicate ScanInvariant(argv: seq<string>, i: nat, triplets: seq<Triplet>, log: seq<string>) {
    && triplets + ValidTriplets(Unscanned(argv, i)) == ValidTriplets(Arguments(argv))
    && log + Diagnostics(Unscanned(argv, i)) == Diagnostics(Arguments(argv))
  }

  lemma GroupStep(argv: seq<string>, i: nat, triplets: seq<Triplet>, log: seq<string>)
    requires i + 3 <= |argv| && ScanInvariant(argv, i, triplets, log)
    ensures var g := argv[i..i + 3];
      match GroupTriplet(g)
      case Some(t) => ScanInvariant(argv, i + 3, triplets + [t], log)
      case None => ScanInvariant(argv, i + 3, triplets, log + [DiagnosticLine(g, BAD_TRIPLET)])
  {
    UnfoldGroup(argv, i);
    var g := argv[i..i + 3];
    var rest := ValidTriplets(Unscanned(argv, i + 3));
    var restLog := Diagnostics(Unscanned(argv, i + 3));
    match GroupTriplet(g)
    case Some(t) =>
      assert ValidTriplets(Unscanned(argv, i)) == [t] + rest;
      assert Diagnostics(Unscanned(argv, i)) == [] + restLog;
      AppendAssociative(triplets, [t], rest);
      assert [] + restLog == restLog;
    case None =>
      assert ValidTriplets(Unscanned(argv, i)) == [] + rest;
      assert [] + rest == rest;
      AppendAssociative(log, [DiagnosticLine(g, BAD_TRIPLET)], restLog);
  }

  lemma AppendAssociative<T>(a: seq<T>, b: seq<T>, c: seq<T>)
    ensures (a + b) + c == a + (b + c)
  {
  }

  /** One complete group at index `i`: its outcome, then the rest. */
  lemma UnfoldGroup(argv: seq<string>, i: nat)
    requires i + 3 <= |argv|
    ensures var g, t := argv[i..i + 3], GroupTriplet(argv[i..i + 3]);
      && ValidTriplets(Unscanned(argv, i)) == (if t.Some? then [t.value] else []) + ValidTriplets(Unscanned(argv, i + 3))
      && Diagnostics(Unscanned(argv, i)) == (if t.None? then [DiagnosticLine(g, BAD_TRIPLET)] else []) + Diagnostics(Unscanned(argv, i + 3))
  {
    assert argv[i..][..3] == argv[i..i + 3];
    assert argv[i..][3..] == Unscanned(argv, i + 3);
  }

  lemma IncompleteGroupStep(argv: seq<string>, i: nat, triplets: seq<Triplet>, log: seq<string>)
    requires i < |argv| < i + 3 && ScanInvariant(argv, i, triplets, log)
    ensures ScanInvariant(argv, |argv|, triplets, log + [DiagnosticLine(argv[i..|argv|], BAD_PARAMETER_COUNT)])
  {
    assert argv[i..|argv|] == argv[i..];
  }

  lemma ScanFinished(argv: seq<string>, i: nat, triplets: seq<Triplet>, log: seq<string>)
    requires |argv| != 1 && i >= |argv| && ScanInvariant(argv, i, triplets, log)
    ensures triplets == ValidTriplets(Arguments(argv)) && log == ParseLog(argv)
  {
  }

  /** `CliParser::_processInvalidTriplet`, with the line returned instead of printed. */
  method ProcessInvalidTriplet(argv: seq<string>, start: nat, end: nat, message: string)
    returns (line: string)
    requires start <= end <= |argv| && end - start <= 3
    ensures line == DiagnosticLine(argv[start..end], message)
  {
    var visited := new string[3](_ => "");
    for i := start to end
      invariant forall k :: 0 <= k < i - start ==> visited[k] == argv[start + k]
      invariant forall k :: i - start <= k < 3 ==> visited[k] == ""
    {
      visited[i - start] := argv[i];
    }
    var stream := "(";
    var separator := "";
    for k := 0 to 3
      invariant stream == "(" + Joined(visited[..k])
      invariant separator == if k == 0 then "" else ","
    {
      assert visited[..k + 1][..k] == visited[..k];
      stream := stream + separator + visited[k];
      separator := ",";
    }
    assert visited[..3] == visited[..];
    assert visited[..] == [Field(argv[start..end], 0), Field(argv[start..end], 1), Field(argv[start..end], 2)];
    line := stream + ") => " + message;
  }

  /** `CliParser::_parseTriplet` on `argv[start..start + 3)`. */
  method ParseTriplet(argv: seq<string>, start: nat) returns (r: Option<Triplet>)
    requires start + 3 <= |argv|
    ensures r == GroupTriplet(argv[start..start + 3])
  {
    var tmp := DefaultTriplet;
    var parsed := true;
    var a := ParseInt64(argv[start]);
    parsed := parsed && a.Some?;
    if a.Some? { tmp := tmp.(a := a.value); }
    var b := ParseInt64(argv[start + 1]);
    parsed := parsed && b.Some?;
    if b.Some? { tmp := tmp.(b := b.value); }
    var c := ParseInt64(argv[start + 2]);
    parsed := parsed && c.Some?;
    if c.Some? { tmp := tmp.(c := c.value); }
    if parsed {
      return Some(tmp);
    }
    return None;
  }

  // ---------------------------------------------------------------------------
  // Properties

  /** Independent description of the groups: the outcome of `_parseTriplet`
      on each complete group `args[3k..3k+3)`, in order. */
  function GroupOutcomes(args: seq<string>): (r: seq<Option<Triplet>>)
    ensures |r| == |args| / 3
  {
    seq(|args| / 3, k requires 0 <= k < |args| / 3 => GroupTriplet(args[3 * k..3 * k + 3]))
  }

  /** The values of the `Some` entries, in order. */
  function Present<T>(os: seq<Option<T>>): (r: seq<T>)
    ensures |r| <= |os|
  {
    if os == [] then []
    else (match os[0] case Some(x) => [x] case None => []) + Present(os[1..])
  }

  lemma {:induction false} PresentEmpty<T>(os: seq<Option<T>>)
    ensures Present(os) == [] <==> forall k :: 0 <= k < |os| ==> os[k].None?
  {
    if os != [] {
      PresentEmpty(os[1..]);
      assert forall k :: 1 <= k < |os| ==> os[k] == os[1..][k - 1];
    }
  }

  /** The parser's output is exactly the triplets of the valid complete groups,
      in argument order: an invalid group contributes nothing and shifts nothing. */
  lemma {:induction false} ValidTripletsAreValidGroups(args: seq<string>)
    ensures ValidTriplets(args) == Present(GroupOutcomes(args))
    decreases |args|
  {
    if |args| >= 3 {
      ValidTripletsAreValidGroups(args[3..]);
      var os, rest := GroupOutcomes(args), GroupOutcomes(args[3..]);
      forall k | 0 <= k < |rest|
        ensures rest[k] == os[k + 1]
      {
        assert args[3..][3 * k..3 * k + 3] == args[3 * (k + 1)..3 * (k + 1) + 3];
      }
      assert os == [GroupTriplet(args[..3])] + rest;
      assert os[1..] == rest;
    }
  }

  /** The complete groups `args[3k..3k+3)`, in order. */
  function CompleteGroups(args: seq<string>): (r: seq<seq<string>>)
    ensures |r| == |args| / 3
    ensures forall k :: 0 <= k < |r| ==> |r[k]| == 3
  {
    seq(|args| / 3, k requires 0 <= k < |args| / 3 => args[3 * k..3 * k + 3])
  }

  /** Independent description of the failure lines: one per complete group
      that `_parseTriplet` rejects, in order. */
  function RejectedLines(groups: seq<seq<string>>): (r: seq<string>)
    requires forall k :: 0 <= k < |groups| ==> |groups[k]| == 3
    ensures |r| <= |groups|
  {
    if groups == [] then []
    else
      (if GroupTriplet(groups[0]).None? then [DiagnosticLine(groups[0], BAD_TRIPLET)] else [])
      + RejectedLines(groups[1..])
  }

  /** The line for the incomplete trailing group, when the argument count is
      not a multiple of 3. */
  function TrailingLine(args: seq<string>): (r: seq<string>)
    ensures |r| == if |args| % 3 == 0 then 0 else 1
  {
    WholeGroups(|args|);
    var n := 3 * (|args| / 3);
    if n == |args| then [] else [DiagnosticLine(args[n..], BAD_PARAMETER_COUNT)]
  }

  lemma GroupsAfterFirst(len: nat)
    requires len >= 3
    ensures (len - 3) / 3 == len / 3 - 1 && (len - 3) % 3 == len % 3
  {
  }

  /** The diagnostic lines are exactly one failure line per rejected complete
      group, in argument order, followed by the line for an incomplete
      trailing group if there is one. */
  lemma {:induction false} DiagnosticsAreRejectedGroups(args: seq<string>)
    ensures Diagnostics(args) == RejectedLines(CompleteGroups(args)) + TrailingLine(args)
    decreases |args|
  {
    if |args| >= 3 {
      DiagnosticsAreRejectedGroups(args[3..]);
      GroupsAfterFirst(|args|);
      var gs, rest := CompleteGroups(args), CompleteGroups(args[3..]);
      forall k | 0 <= k < |rest|
        ensures rest[k] == gs[k + 1]
      {
        assert args[3..][3 * k..3 * k + 3] == args[3 * (k + 1)..3 * (k + 1) + 3];
      }
      assert rest == gs[1..];
      assert gs[0] == args[..3];
      var n := 3 * (|args| / 3);
      assert 3 * (|args[3..]| / 3) == n - 3;
      assert args[3..][n - 3..] == args[n..];
      assert TrailingLine(args[3..]) == TrailingLine(args);
      var head := if GroupTriplet(args[..3]).None? then [DiagnosticLine(args[..3], BAD_TRIPLET)] else [];
      AppendAssociative(head, RejectedLines(rest), TrailingLine(args));
    } else {
      assert CompleteGroups(args) == [];
      assert args[0..] == args;
    }
  }

  /** Parsing two runs of arguments, the first made of whole groups, is
      parsing each on its own. */
  lemma {:induction false} ValidTripletsAppend(front: seq<string>, back: seq<string>)
    requires |front| % 3 == 0
    ensures ValidTriplets(front + back) == ValidTriplets(front) + ValidTriplets(back)
    ensures Diagnostics(front + back) == Diagnostics(front) + Diagnostics(back)
    decreases |front|
  {
    if front == [] {
      assert front + back == back;
    } else {
      ValidTripletsAppend(front[3..], back);
      var g := front[..3];
      assert (front + back)[..3] == g;
      assert (front + back)[3..] == front[3..] + back;
      var t := if GroupTriplet(g).Some? then [GroupTriplet(g).value] else [];
      var d := if GroupTriplet(g).None? then [DiagnosticLine(g, BAD_TRIPLET)] else [];
      AppendAssociative(t, ValidTriplets(front[3..]), ValidTriplets(back));
      AppendAssociative(d, Diagnostics(front[3..]), Diagnostics(back));
    }
  }

  /** An incomplete trailing group yields no triplet. */
  lemma TrailingGroupIgnored(args: seq<string>)
    ensures ValidTriplets(args) == ValidTriplets(args[..3 * (|args| / 3)])
  {
    var n := 3 * (|args| / 3);
    WholeGroups(|args|);
    assert 0 <= n <= |args|;
    var front, back := args[..n], args[n..];
    assert |front| % 3 == 0 && |back| < 3;
    assert front + back == args;
    ValidTripletsAppend(front, back);
    assert ValidTriplets(back) == [];
    assert ValidTriplets(args) == ValidTriplets(front) + [];
  }

  lemma WholeGroups(len: nat)
    ensures (3 * (len / 3)) % 3 == 0 && 0 <= len - 3 * (len / 3) < 3
  {
    var q := len / 3;
    assert (3 * q) % 3 == 0;
  }

  /** Every group, complete or not, produces exactly one of a triplet and a
      diagnostic line. */
  lemma {:induction false} EachGroupReported(args: seq<string>)
    ensures |ValidTriplets(args)| + |Diagnostics(args)| == (|args| + 2) / 3
    decreases |args|
  {
    if |args| >= 3 {
      EachGroupReported(args[3..]);
    }
  }

  /** `parse` fails with "missing command line arguments" exactly when there
      are none, and otherwise succeeds exactly when some complete group is
      valid; a success is never empty, holds at most one triplet per group and
      carries no ids. */
  lemma ParseOutcome(argv: seq<string>)
    ensures ParseResult(argv) == Failure(MISSING_ARGUMENTS) <==> |argv| == 1
    ensures ParseResult(argv) == Failure(NO_VALID_PARAMETERS)
            <==> |argv| != 1 && forall k :: 0 <= k < |GroupOutcomes(Arguments(argv))| ==> GroupOutcomes(Arguments(argv))[k].None?
    ensures ParseResult(argv).Success? ==>
              var ts := ParseResult(argv).value.triplets;
              && 0 < |ts| <= (|argv| - 1) / 3
              && forall k :: 0 <= k < |ts| ==> ts[k].id == INVALID_TRIPLET_ID
  {
    ValidTripletsAreValidGroups(Arguments(argv));
    PresentEmpty(GroupOutcomes(Arguments(argv)));
    assert MISSING_ARGUMENTS != NO_VALID_PARAMETERS by {
      assert MISSING_ARGUMENTS[15] != NO_VALID_PARAMETERS[15];
    }
  }

  /** From the unit tests: no arguments at all. */
  lemma ParseExampleNoArguments()
    ensures ParseResult(["app_name"]) == Failure(MISSING_ARGUMENTS)
    ensures ParseLog(["app_name"]) == []
  {
  }

  /** From the end-to-end tests: a lone incomplete group is reported with its
      missing field left empty, and nothing is valid. */
  lemma ParseExampleIncomplete()
    ensures ParseLog(["app", "1", "2"]) == ["(1,2,) => " + BAD_PARAMETER_COUNT]
    ensures ParseResult(["app", "1", "2"]) == Failure(NO_VALID_PARAMETERS)
  {
    var argv := ["app", "1", "2"];
    assert Arguments(argv) == ["1", "2"];
    var line := DiagnosticLine(["1", "2"], BAD_PARAMETER_COUNT);
    assert "(" + "1" + "," + "2" + "," + "" + ") => " == "(1,2,) => ";
    assert line == "(1,2,) => " + BAD_PARAMETER_COUNT;
  }

  lemma ExampleGroups()
    ensures GroupTriplet(["1", "2", "3"]) == Some(Triplet(1, 2, 3, -1))
    ensures GroupTriplet(["10", "b", "30"]) == None
    ensures GroupTriplet(["-10", "-20", "-30"]) == Some(Triplet(-10, -20, -30, -1))
  {
    assert ParseInt64("1") == Some(1) && ParseInt64("2") == Some(2) && ParseInt64("3") == Some(3);
    assert ParseInt64("b") == None by {
      assert !IsDigit("b"[0]);
    }
    assert ParseInt64("-10") == Some(-10) by { TwoDigits("-10", 1, 0); }
    assert ParseInt64("-20") == Some(-20) by { TwoDigits("-20", 2, 0); }
    assert ParseInt64("-30") == Some(-30) by { TwoDigits("-30", 3, 0); }
  }

  lemma TwoDigits(s: string, d1: nat, d0: nat)
    requires d1 < 10 && d0 < 10 && s == ['-', DigitChar(d1), DigitChar(d0)]
    ensures ParseInt64(s) == Some(-(10 * d1 + d0))
  {
    var digits := s[1..];
    assert digits == [DigitChar(d1), DigitChar(d0)];
    assert digits[..1] == [DigitChar(d1)] && digits[..1][..0] == [];
    assert DigitsValue(digits[..1]) == d1;
    assert DigitsValue(digits) == 10 * d1 + d0;
    assert IsDecimalLiteral(s) && LiteralValue(s) == -(10 * d1 + d0);
  }

  /** From the unit tests: a bad middle group and an incomplete last group are
      skipped, the other groups kept in order. */
  lemma ParseExampleMixed()
    ensures ParseResult(["app", "1", "2", "3", "10", "b", "30", "-10", "-20", "-30", "a"])
            == Success(CliArgs([Triplet(1, 2, 3, -1), Triplet(-10, -20, -30, -1)]))
  {
    var argv := ["app", "1", "2", "3", "10", "b", "30", "-10", "-20", "-30", "a"];
    var args := ["1", "2", "3", "10", "b", "30", "-10", "-20", "-30", "a"];
    assert Arguments(argv) == args;
    MixedTriplets(args);
  }

  lemma MixedTriplets(args: seq<string>)
    requires args == ["1", "2", "3", "10", "b", "30", "-10", "-20", "-30", "a"]
    ensures ValidTriplets(args) == [Triplet(1, 2, 3, -1), Triplet(-10, -20, -30, -1)]
  {
    var g0, g1, g2, tail := ["1", "2", "3"], ["10", "b", "30"], ["-10", "-20", "-30"], ["a"];
    assert args == g0 + (g1 + (g2 + tail));
    MixedGroups(g0, g1, g2, tail);
    ValidTripletsAppend(g2, tail);
    ValidTripletsAppend(g1, g2 + tail);
    ValidTripletsAppend(g0, g1 + (g2 + tail));
    assert ValidTriplets(args)
        == [Triplet(1, 2, 3, -1)] + ([] + ([Triplet(-10, -20, -30, -1)] + []));
  }

  lemma MixedGroups(g0: seq<string>, g1: seq<string>, g2: seq<string>, tail: seq<string>)
    requires g0 == ["1", "2", "3"] && g1 == ["10", "b", "30"] && g2 == ["-10", "-20", "-30"] && tail == ["a"]
    ensures ValidTriplets(g0) == [Triplet(1, 2, 3, -1)]
    ensures ValidTriplets(g1) == []
    ensures ValidTriplets(g2) == [Triplet(-10, -20, -30, -1)]
    ensures ValidTriplets(tail) == []
  {
    ExampleGroups();
    assert g0[..3] == g0 && g1[..3] == g1 && g2[..3] == g2;
    assert g0[3..] == [] && g1[3..] == [] && g2[3..] == [];
  }
}
