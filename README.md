# tektask in Dafny

A model of the core of *tektask*, a command-line program that reads quadratic
equations `a x^2 + b x + c = 0` as triplets of 64-bit integer coefficients
from `argv`, solves them on worker threads fed through a blocking queue, and
prints one result line per valid triplet in command-line order.

The project is made of these modules:

- **Types** (`types.dfy`) holds the records `Triplet` and `CliArgs` and the constant `INVALID_TRIPLET_ID`. It also holds `SameEquation`, the `Triplet::operator==` that compares coefficients only.
- **IntText** (`int_text.dfy`) models the decimal text of `int64_t`:
  - `ParseInt64` is the parser's `stoi` lambda over `std::from_chars`. It takes an optional `-`, then one or more digits, and the whole string must be consumed. It rejects overflow and the empty string.
  - `FormatInt` is `operator<<` on an integer.
- **CliParser** (`cli_parser.dfy`) models `CliParser::parse`, `_parseTriplet` and `_processInvalidTriplet`.
  - Each method is proved against a specification function.
  - The diagnostic lines printed to stdout are returned as a log.
  - The thrown `std::invalid_argument` becomes a `Failure` carrying its message.
- **Queue** (`blocking_queue.dfy`) models `BlockingQueue<T>` in two forms:
  - a class with `WaitPush`, `WaitPop` and `Shutdown`;
  - a pure state machine over traces of operations, on which FIFO order and the one-way `stopped` flag are proved.
- **Resolver** (`quadratic_resolver.dfy`) models `QuadraticEquationResolver`:
  - `Resolve` is `resolve`. Exact in the model: the "(a, b, c) => " prefix, the ", Xmin=" joint, the "(…), no extremum" framing of a linear root, and the two `a == b == 0` texts. The root text for `a != 0` ("no real roots", "(x)" or "(x1, x2)"), the linear root and the `Xmin` value come from the `FloatText` parameter.
  - `Run` is the worker loop. It is proved to write the result buffer as `ApplyWrites` says: each popped triplet's result goes to the slot named by its id.
- **App** (`app.dfy`) models `main`:
  - the thread count;
  - the numbering of triplets;
  - the pipeline of one queue, `n` resolvers and one result buffer;
  - the exit code and the output lines, both with the resolver count as written (`RunAppAsWritten`) and with the corrected count (`RunApp`).

Concurrency is modelled sequentially. Every queue operation is atomic. `waitPop`'s wait becomes a precondition: the queue is non-empty or stopped. `main` pushes everything, shuts the queue down, and only then runs the workers, one after another. The first worker drains the queue, and the others see it closed. `ApplyWritesOrderIrrelevant` shows that the order in which the triplets are taken does not change the buffer, because the ids are distinct. That is why a sequential schedule gives the same buffer as any interleaving of the resolvers.

## Model

| member | source | states |
|---|---|---|
| Types.SameEquation | lib/utils/types/types.h:24-27 | Two triplets are equal exactly when they differ at most in their id |
| Types.SameEquationIgnoresId | lib/utils/types/types.h:24-27 | Equality of triplets compares the three coefficients and ignores the id; changing only the id keeps a triplet equal to itself |
| Types.SameEquationIsEquivalence | lib/utils/types/types.h:24-27 | Triplet equality is reflexive, symmetric and transitive |
| Types.DefaultsAreEmpty | lib/utils/types/types.h:17-39 | A default triplet has zero coefficients and id -1; default arguments hold no triplets |
| IntText.ParseInt64 | lib/cli/cli_parser.cpp:79-89 | The empty string is rejected; accepted text is an optional '-' followed by digits only, and a negative value needs the '-' |
| IntText.FormatInt | lib/resolver/quadratic_resolver.h:71 | The printed form of an integer is an optional '-' followed by at least one digit |
| IntText.ParseFormatRoundTrip | lib/cli/cli_parser.cpp:79-89 | Reading back the decimal text of any int64 value yields that value |
| IntText.ParseInt64RejectsOverflow | lib/cli/cli_parser.cpp:86-88 | The decimal text of a value outside the int64 range is rejected |
| IntText.ParseInt64Rejects | lib/cli/cli_parser.cpp:81-88 | The empty string, a lone '-', a leading '+', a leading space, trailing junk and a non-digit are all rejected |
| IntText.ParseInt64Accepts | lib/cli/cli_parser.cpp:86-88 | A negative number, leading zeros and "-0" are accepted with their values |
| IntText.FormatIntInjective | lib/resolver/quadratic_resolver.h:71 | Different integers print differently |
| IntText.FormatIntHasNoSeparator | lib/resolver/quadratic_resolver.h:71 | A printed integer contains no ',', ')' or space |
| CliParser.GroupTriplet | lib/cli/cli_parser.cpp:76-101 | A group of three strings yields a triplet exactly when all three parse; it then holds their values and the invalid id |
| CliParser.DiagnosticLine | lib/cli/cli_parser.cpp:54-74 | A rejected group is printed as "(" f0 "," f1 "," f2 ") => " message, with "" for each field an incomplete group lacks |
| CliParser.Diagnostics | lib/cli/cli_parser.cpp:26-43 | At most one diagnostic line per group, complete or not |
| CliParser.ParseResult | lib/cli/cli_parser.cpp:15-52 | A failure carries one of the two messages `parse` throws; a success holds at least one triplet and needs at least three arguments |
| CliParser.ParseLog | lib/cli/cli_parser.cpp:26-43 | At most one printed line per group of the arguments |
| CliParser.ValidTriplets | lib/cli/cli_parser.cpp:26-43 | At most one triplet per complete group, each with the invalid id |
| CliParser.Parse | lib/cli/cli_parser.cpp:15-52 | The loop returns what the specification functions give: the triplets of the valid groups or the right error, plus the diagnostic lines in order |
| CliParser.ProcessInvalidTriplet | lib/cli/cli_parser.cpp:54-74 | The line built from a three-slot array padded with "" and joined by ',' is the diagnostic line of the group |
| CliParser.ParseTriplet | lib/cli/cli_parser.cpp:76-101 | The accumulated `parsed` flag and the triplet being filled agree with the group's outcome |
| CliParser.ValidTripletsAreValidGroups | lib/cli/cli_parser.cpp:26-43 | The parsed triplets are exactly the successful groups `args[3k..3k+3)`, in order, so an invalid group neither contributes nor shifts anything |
| CliParser.ValidTripletsAppend | lib/cli/cli_parser.cpp:26-43 | Parsing arguments made of whole groups followed by more arguments equals parsing each part and concatenating, for both triplets and diagnostics |
| CliParser.TrailingGroupIgnored | lib/cli/cli_parser.cpp:29-33 | An incomplete trailing group contributes no triplet |
| CliParser.DiagnosticsAreRejectedGroups | lib/cli/cli_parser.cpp:26-43 | The diagnostic lines are exactly one "failed to parse triplet" line per rejected complete group `args[3k..3k+3)`, in order, followed by one "parameter count" line for an incomplete trailing group when the count is not a multiple of 3 |
| CliParser.EachGroupReported | lib/cli/cli_parser.cpp:26-43 | The triplets and the diagnostic lines together number exactly the groups, complete or not |
| CliParser.ParseOutcome | lib/cli/cli_parser.cpp:17-51 | Fails with "missing command line arguments" if and only if there are no arguments; fails with "no valid parameters" if and only if no complete group is valid; a success is non-empty, holds at most (argc-1)/3 triplets and carries only invalid ids |
| CliParser.ParseExampleNoArguments | test/unit/cli_test/cli_test.cpp:16-40 | `{"app_name"}` gives the missing-arguments error and prints nothing |
| CliParser.ParseExampleIncomplete | e2e_runner.py:35-40 | `1 2` prints "(1,2,) => Invalid input: parameter count must be a multiple of 3!" and fails with no valid parameters |
| CliParser.ParseExampleMixed | test/unit/cli_test/cli_test.cpp:120-148 | A bad middle group and an incomplete tail are skipped; the two valid triplets are kept in order |
| Queue.PushStep | lib/queue/blocking_queue.h:74-81 | A push keeps the queued items in front, adds the new item last, and keeps the stopped flag |
| Queue.PopStep | lib/queue/blocking_queue.h:91-107 | A pop that returns an item removes exactly the head; any other pop happens only on an empty queue and changes nothing; the stopped flag is kept |
| Queue.ShutdownStep | lib/queue/blocking_queue.h:114-121 | Shutdown sets the flag and keeps the items |
| Queue.BlockingQueue.constructor | lib/queue/blocking_queue.h:25 | A new queue is empty and not stopped |
| Queue.BlockingQueue.WaitPush | lib/queue/blocking_queue.h:74-81 | The item is appended at the tail; the stopped flag is untouched |
| Queue.BlockingQueue.WaitPop | lib/queue/blocking_queue.h:91-107 | Returns and removes the head while there is one, even after shutdown; returns false and leaves `out` alone only when stopped and empty |
| Queue.BlockingQueue.Shutdown | lib/queue/blocking_queue.h:114-121 | Sets the stopped flag and leaves the items alone |
| Queue.PopOutcomes | lib/queue/blocking_queue.h:91-107 | A pop reports closed if and only if stopped and empty, waits if and only if empty and not stopped, and changes the state only when it returns an item |
| Queue.PushThenPop | lib/queue/blocking_queue.h:58-107 | On an empty queue a pop returns what was just pushed and restores the state; on a non-empty one push and pop commute |
| Queue.ShutdownIdempotent | lib/queue/blocking_queue.h:114-121 | Shutting down twice is shutting down once |
| Queue.StoppedIsOneWay | lib/queue/blocking_queue.h:114-121 | After any sequence of operations the queue is stopped if and only if it was stopped before or the sequence contains a shutdown |
| Queue.FifoConservation | lib/queue/blocking_queue.h:58-107 | Over any sequence of operations, the items delivered followed by those still queued equal the items queued at the start followed by those pushed |
| Queue.DrainAfterShutdown | test/unit/queue_test/blocking_queue_test.cpp:129-159 | Pushing xs, shutting down, then popping delivers exactly xs in order, followed by one false |
| Queue.ClosedStaysClosed | lib/queue/blocking_queue.h:99-102 | Once stopped and empty, a queue that receives no pushes reports closed on every pop |
| Resolver.Resolve | lib/resolver/quadratic_resolver.h:68-133 | Every result begins with the equation's "(a, b, c) => " prefix |
| Resolver.ResolveShape | lib/resolver/quadratic_resolver.h:68-71 | Every result starts with "(a, b, c) => " and does not depend on the id |
| Resolver.LinearHasNoExtremum | lib/resolver/quadratic_resolver.h:77-98 | With a == 0 every result ends in ", no extremum" |
| Resolver.ResolveDegenerate | lib/resolver/quadratic_resolver.h:86-96 | a == b == 0 gives "infinite roots" when c == 0 and "no solution" otherwise |
| Resolver.ResolveIdentifiesEquation | lib/resolver/quadratic_resolver.h:71 | Two equal result texts come from the same equation, whatever the floating-point parts print |
| Resolver.ResolveExampleInfinite | test/unit/resolver_test/quadratic_resolver_test.cpp:36 | (0, 0, 0), with any id, resolves to "(0, 0, 0) => infinite roots, no extremum" |
| Resolver.ResolveExampleNoSolution | test/unit/resolver_test/quadratic_resolver_test.cpp:39 | (0, 0, 10), with any id, resolves to "(0, 0, 10) => no solution, no extremum" |
| Resolver.ApplyWrites | lib/resolver/quadratic_resolver.h:143-154 | Writing the results at the items' ids keeps the buffer's size |
| Resolver.ApplyWritesAt | lib/resolver/quadratic_resolver.h:143-154 | With distinct ids, a slot holds the result of the triplet whose id names it, and keeps its old content when no triplet names it |
| Resolver.ApplyWritesOrderIrrelevant | lib/resolver/quadratic_resolver.h:143-154 | Any order of the same triplets with distinct ids fills the buffer identically |
| Resolver.ApplyWritesDense | test/unit/resolver_test/quadratic_resolver_test.cpp:105-140 | When triplet i carries id i, slot i ends up holding triplet i's result |
| Resolver.QuadraticEquationResolver.constructor | lib/resolver/quadratic_resolver.h:33-38 | The resolver refers to the given queue and buffer |
| Resolver.QuadraticEquationResolver.Run | lib/resolver/quadratic_resolver.h:143-154 | On a shut-down queue, the loop empties the queue and leaves the buffer as writing each popped triplet's result at its id would |
| App.ThreadCount | app/main.cpp:26-27 | The thread count is the reported concurrency, or 4 when 0 is reported; it is at least 1 |
| App.ResolverCountAsWritten | app/main.cpp:35-39 | The program starts one resolver fewer than the thread count |
| App.ResolverCount | app/main.cpp:35-39 | The corrected count is at least 1 and agrees with the written one whenever that is at least 1 |
| App.Numbered | app/main.cpp:42-47 | Triplet i is pushed with id i and its coefficients unchanged |
| App.RunPipeline | app/main.cpp:29-56 | With at least one resolver, result slot i holds the result of triplet i; with none, every slot stays empty |
| App.RunMain | app/main.cpp:14-72 | Exit code 1 if and only if parsing fails, with the parse error on stderr and the diagnostics on stdout. Otherwise exit code 0, and stdout holds the diagnostics, an empty line and one line per triplet in order. That line is the triplet's result when at least one resolver runs, and "" when none does |
| App.RunApp | app/main.cpp:14-72 | `main` with the corrected resolver count: a parse failure as in RunMain, otherwise exit code 0 with each triplet's result printed in order, on any machine |
| App.RunAppAsWritten | app/main.cpp:14-72 | `main` as written: exit code 1 with the diagnostics on stdout and the error on stderr when parsing fails; otherwise exit code 0, nothing on stderr, the diagnostics and an empty line, then one line per triplet that is "" when one core is reported and the triplet's result otherwise |
| App.SingleCoreStartsNoResolver | app/main.cpp:26-39 | With one reported core no resolver is started, yet no result is empty; the corrected count starts one |

## Left out

- Threads, the mutex and the condition variable are left out. Each queue operation is atomic, and the resolvers run one after another after `shutdown`. `ApplyWritesOrderIrrelevant` covers the scheduling freedom that remains.
- Blocking is not modelled as waiting. `Queue.BlockingQueue.WaitPop` requires a non-empty or stopped queue instead, and the trace model reports `WouldBlock`.
- The floating-point arithmetic of `resolve` is a parameter (`FloatText`), because double rounding and `operator<<` for `double` are outside the model. That parameter covers:
  - the linear root -c/b;
  - the discriminant test and root text;
  - `Xmin` and its -0.0 normalisation.
- Console output is returned as sequences of lines, not written to `std::cout` or `std::cerr`. Standard output and standard error are separate sequences, so the model does not state their relative order. In the program, the diagnostics reach stdout before the parse error reaches stderr.
- The copy and move constructors and the move assignments of `BlockingQueue` and `QuadraticEquationResolver` are left out. `main` moves each resolver into its `std::thread` (app/main.cpp:38). The move constructor copies the two references (lib/resolver/quadratic_resolver.h:44-47), so the moved-to resolver behaves as the one constructed.
- `std::thread::hardware_concurrency()` becomes an input of `App.RunApp`.
- A reported concurrency of 2^31 or more would overflow the `int i` of the loop that starts the resolvers. This is not modelled.
- `CACHE_SIZE` in lib/utils/constants/constants.h is left out. No core code reads it.
- A null `argv` entry, which the `stoi` lambda rejects, is not modelled. Arguments are strings.
- `EquationSolveResult` is a plain string defaulting to "". Its definition is not part of this model.
- The build scripts, the end-to-end runner and the randomised test data are left out.
- App.RunApp starts `ResolverCount` resolvers, the correction under ## Findings. `main` as written starts `ResolverCountAsWritten` of them, and on one reported core prints an empty line for every triplet. That behaviour is App.RunAppAsWritten.
- App.RunApp requires at most 2^31 - 1 arguments, because `argc` is an `int`.

## Findings

| source | as written | input that shows it | evidently intended | confidence | as-written member | corrected member |
|---|---|---|---|---|---|---|
| app/main.cpp:35-39 | `threadCount - 1` resolver threads are started, so `hardware_concurrency() == 1` starts none. The buffer is never written, and `main` prints an empty line for every triplet | one reported core, `argv` = `app 1 -2 -3`: the program prints "" instead of "(1, -2, -3) => (3, -1), Xmin=1" | At least one resolver is started: max(1, threadCount - 1) | not executed | App.RunAppAsWritten | App.RunApp |
