/** `main` (app/main.cpp): parse the command line, push the numbered
    triplets through a `BlockingQueue` to the resolvers, and print the
    results in input order. */
module App {
  import opened Wrappers
  import opened Types
  import opened CliParser
  import opened Queue
  import opened Resolver

  const EXIT_SUCCESS := 0
  const EXIT_FAILURE := 1

  /** Used when `hardware_concurrency()` cannot tell. */
  const FALLBACK_THREAD_COUNT: UInt32 := 4

  /** The number of threads the program plans for, the main one included. */
  function ThreadCount(hardwareConcurrency: UInt32): (n: UInt32)
    ensures n >= 1
    ensures hardwareConcurrency != 0 ==> n == hardwareConcurrency
    ensures hardwareConcurrency == 0 ==> n == FALLBACK_THREAD_COUNT
  {
    if hardwareConcurrency == 0 then FALLBACK_THREAD_COUNT else hardwareConcurrency
  }

  /** The resolver threads started, as written: one per planned thread besides
      the main one, so none at all when the machine reports one core. */
  function ResolverCountAsWritten(hardwareConcurrency: UInt32): (n: nat)
    ensures n + 1 == ThreadCount(hardwareConcurrency)
  {
    ThreadCount(hardwareConcurrency) - 1
  }

  /** The resolver threads started, corrected: at least one, and otherwise as
      written. */
  function ResolverCount(hardwareConcurrency: UInt32): (n: nat)
    ensures n >= 1
    ensures ResolverCountAsWritten(hardwareConcurrency) >= 1 ==> n == ResolverCountAsWritten(hardwareConcurrency)
  {
    if ThreadCount(hardwareConcurrency) >= 2 then ThreadCount(hardwareConcurrency) - 1 else 1
  }

  /** The triplets as pushed: `triplet.id = i` before `waitPush`. */
  function Numbered(triplets: seq<Triplet>): (r: seq<Triplet>)
    requires |triplets| <= 0x7FFF_FFFF
    ensures |r| == |triplets|
    ensures forall i :: 0 <= i < |r| ==> r[i].id == i && SameEquation(r[i], triplets[i])
  {
    seq(|triplets|, i requires 0 <= i < |triplets| => triplets[i].(id := i))
  }

  /** The pipeline between parsing and printing: `workers` resolvers share one
      queue and one buffer of `|triplets|` empty results. The workers are run
      one after another once the queue is shut down; the first drains it. */
  method RunPipeline(triplets: seq<Triplet>, workers: nat, fp: FloatText) returns (output: seq<string>)
    requires |triplets| <= 0x7FFF_FFFF
    ensures |output| == |triplets|
    ensures workers >= 1 ==> forall i :: 0 <= i < |output| ==> output[i] == Resolve(triplets[i], fp)
    ensures workers == 0 ==> forall i :: 0 <= i < |output| ==> output[i] == ""
  {
    var buffer := new string[|triplets|](_ => "");
    var input := new BlockingQueue<Triplet>();
    ghost var empty := buffer[..];

    var consumers: seq<QuadraticEquationResolver> := [];
    for i := 0 to workers
      invariant |consumers| == i
      invariant input.State() == InitialState() && buffer[..] == empty
      invariant forall k :: 0 <= k < i ==> consumers[k].queue == input && consumers[k].storage == buffer
    {
      var consumer := new QuadraticEquationResolver(input, buffer);
      consumers := consumers + [consumer];
    }

    ghost var numbered := Numbered(triplets);
    for i := 0 to |triplets|
      invariant input.State() == QueueState(numbered[..i], false)
      invariant buffer[..] == empty
    {
      var triplet := triplets[i].(id := i);
      input.WaitPush(triplet);
      assert numbered[..i + 1] == numbered[..i] + [triplet];
    }
    assert numbered[..|triplets|] == numbered;
    input.Shutdown();

    ghost var filled := ApplyWrites(empty, numbered, fp);
    for k := 0 to |consumers|
      invariant input.stopped && IdsWithin(input.items, buffer.Length)
      invariant k == 0 ==> input.items == numbered && buffer[..] == empty
      invariant k > 0 ==> input.items == [] && buffer[..] == filled
    {
      consumers[k].Run(fp);
    }

    output := buffer[..];
    if workers >= 1 {
      ApplyWritesDense(empty, numbered, fp);
      forall i | 0 <= i < |output|
        ensures output[i] == Resolve(triplets[i], fp)
      {
        ResolveShape(triplets[i], fp);
        assert numbered[i] == triplets[i].(id := i);
      }
    }
  }

  /** The body of `main` once the number of resolver threads is chosen: the
      exit code and the lines written to standard output and standard error.
      A parse error goes to standard error, and the parser's diagnostics to
      standard output; otherwise an empty line and one result line per valid
      triplet, in command-line order, follow the diagnostics. A result line
      is the triplet's result when some resolver runs and the default empty
      result when none does. */
  method RunMain(argv: seq<string>, resolvers: nat, fp: FloatText)
    returns (exitCode: int, stdout: seq<string>, stderr: seq<string>)
    requires |argv| <= 0x7FFF_FFFF
    ensures exitCode == EXIT_FAILURE <==> ParseResult(argv).Failure?
    ensures exitCode == EXIT_SUCCESS <==> ParseResult(argv).Success?
    ensures ParseResult(argv).Failure? ==> stdout == ParseLog(argv) && stderr == [ParseResult(argv).error]
    ensures ParseResult(argv).Success? ==>
      |stdout| == |ParseLog(argv)| + 1 + |ParseResult(argv).value.triplets|
    ensures ParseResult(argv).Success? ==>
      var triplets := ParseResult(argv).value.triplets;
      var results := stdout[|ParseLog(argv)| + 1..];
      stderr == [] && stdout[..|ParseLog(argv)| + 1] == ParseLog(argv) + [""] &&
      forall i :: 0 <= i < |results| ==> results[i] == if resolvers >= 1 then Resolve(triplets[i], fp) else ""
  {
    var parsed, log := Parse(argv);
    stdout, stderr := log, [];
    if parsed.Failure? {
      stderr := [parsed.error];
      return EXIT_FAILURE, stdout, stderr;
    }
    ParseOutcome(argv);
    var output := RunPipeline(parsed.value.triplets, resolvers, fp);
    stdout := stdout + [""] + output;
    assert stdout[|log| + 1..] == output;
    exitCode := EXIT_SUCCESS;
  }

  /** `main` with the corrected resolver count: every valid triplet's result
      is printed, whatever the machine reports. */
  method RunApp(argv: seq<string>, hardwareConcurrency: UInt32, fp: FloatText)
    returns (exitCode: int, stdout: seq<string>, stderr: seq<string>)
    requires |argv| <= 0x7FFF_FFFF
    ensures exitCode == EXIT_FAILURE <==> ParseResult(argv).Failure?
    ensures ParseResult(argv).Failure? ==> stdout == ParseLog(argv) && stderr == [ParseResult(argv).error]
    ensures ParseResult(argv).Success? ==>
      |stdout| == |ParseLog(argv)| + 1 + |ParseResult(argv).value.triplets|
    ensures ParseResult(argv).Success? ==>
      var triplets := ParseResult(argv).value.triplets;
      var results := stdout[|ParseLog(argv)| + 1..];
      exitCode == EXIT_SUCCESS && stderr == [] && stdout[..|ParseLog(argv)| + 1] == ParseLog(argv) + [""] &&
      forall i :: 0 <= i < |results| ==> results[i] == Resolve(triplets[i], fp)
  {
    exitCode, stdout, stderr := RunMain(argv, ResolverCount(hardwareConcurrency), fp);
  }

  /** `main` as written: on a machine reporting one core no resolver runs, and
      every result line is empty. */
  method RunAppAsWritten(argv: seq<string>, hardwareConcurrency: UInt32, fp: FloatText)
    returns (exitCode: int, stdout: seq<string>, stderr: seq<string>)
    requires |argv| <= 0x7FFF_FFFF
    ensures exitCode == EXIT_FAILURE <==> ParseResult(argv).Failure?
    ensures ParseResult(argv).Failure? ==> stdout == ParseLog(argv) && stderr == [ParseResult(argv).error]
    ensures ParseResult(argv).Success? ==>
      |stdout| == |ParseLog(argv)| + 1 + |ParseResult(argv).value.triplets|
    ensures ParseResult(argv).Success? ==>
      var triplets := ParseResult(argv).value.triplets;
      var results := stdout[|ParseLog(argv)| + 1..];
      exitCode == EXIT_SUCCESS && stderr == [] && stdout[..|ParseLog(argv)| + 1] == ParseLog(argv) + [""] &&
      forall i :: 0 <= i < |results| ==>
        results[i] == if ThreadCount(hardwareConcurrency) == 1 then "" else Resolve(triplets[i], fp)
  {
    exitCode, stdout, stderr := RunMain(argv, ResolverCountAsWritten(hardwareConcurrency), fp);
  }

  /** As written, a machine reporting one core starts no resolver, so every
      result line stays empty although no result is ever empty. */
  lemma SingleCoreStartsNoResolver(t: Triplet, fp: FloatText)
    ensures ResolverCountAsWritten(1) == 0
    ensures ResolverCount(1) == 1
    ensures Resolve(t, fp) != ""
  {
    ResolveShape(t, fp);
  }
}
