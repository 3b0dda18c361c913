# Profiler demo programs: a verified model of their sequential core

The repository ships small Go programs whose purpose is to give a profiler
something to look at: an HTTP user service that burns CPU and contends on
locks (`go_examples/webservice/main.go`), and a simulator that runs reader,
writer and counter goroutines against shared state
(`go_examples/concurrency/main.go`). Beneath the goroutines and locks sits a
small deterministic core, and that core is what this Dafny project models and
proves properties of. (The repository's main product, a web dashboard for
uploading and browsing captured profiles, is record-keeping glue around an
external profiling tool and is not part of this model.)

- `search.dfy` (module `Search`): the naive substring search
  `inefficientContains`, an imperative nested loop proved equal to the
  mathematical "needle occurs in haystack" predicate.
- `recurrences.dfy` (module `Recurrences`): the doubly recursive
  `expensiveComputation` and `fibonacci`, related to an independent linear
  definition of the Fibonacci numbers.
- `userservice.dfy` (module `UserService`): the four HTTP handlers as pure
  functions of the request method, the parsed parameters, the user store and
  the user cache: the GET-only guard, the listing, the search filter, the
  read-through cache of the lookup by id, and the `/compute` answer.
- `contention.dfy` (module `Contention`): the simulator's set-up (how many
  workers of each kind, which tick intervals), the 100-key space of the shared
  map, the writers' payload sizes, the statistics figures and the paired
  counter increments. Each locked section is one atomic step on a value.
- `wrappers.dfy` (module `Wrappers`): the `Option` type.

Modelling choices:

- A Go `string` is a Dafny `string` whose characters stand for the bytes of
  the Go string; Go's `len` and indexing count bytes, so every length and
  index in the model is a byte count.
- Go's `map` iteration order is unspecified. Where a handler ranges over the
  user store, the order is an input `order: seq<int>` that lists every stored
  id exactly once (`Enumerates`).
- The id in `/users/<id>` is parsed with `fmt.Sscanf`; the model takes the
  parse outcome as an `Option<int>`, with `None` for a path that does not
  parse (answered with 400).
- Every `rand.Intn(n)` becomes a parameter with the precondition
  `0 <= draw < n`; the bytes of `rand.Read` become a parameter of the right
  length.
- Durations are whole milliseconds.

## Model

| member | source | states |
|---|---|---|
| Search.InefficientContains | go_examples/webservice/main.go:216-235 | the nested loop returns true exactly when some start `0 <= i <= len(h)-len(n)` has `h[i..i+len(n)] == n`; true for the empty needle, false for a needle longer than the haystack; every byte the inner loop reads is in bounds |
| Search.EmptyNeedleAlwaysFound | go_examples/webservice/main.go:217-219 | the empty needle occurs in every haystack |
| Search.LongerNeedleNeverFound | go_examples/webservice/main.go:222-234 | a needle longer than the haystack never occurs, so the negative outer bound correctly yields false |
| Recurrences.Fibonacci | go_examples/concurrency/main.go:307-312 | `fibonacci(n)` returns `n` for every `n <= 1` (negative ones too) and is never negative for `n >= 0` |
| Recurrences.FibonacciIsFib | go_examples/concurrency/main.go:307-312 | on the naturals `fibonacci` equals the n-th Fibonacci number of the linear reference |
| Recurrences.FibonacciOfTen | go_examples/concurrency/main.go:268 | the incrementers' per-tick workload `fibonacci(10)` is 55 |
| Recurrences.ExpensiveComputation | go_examples/webservice/main.go:238-244 | `expensiveComputation(n)` is 1 for every `n <= 1` and at least 1 for every `n` |
| Recurrences.ExpensiveComputationIsShiftedFib | go_examples/webservice/main.go:238-244 | on the naturals `expensiveComputation(n)` is the Fibonacci number F(n+1) of the linear reference |
| Recurrences.ExpensiveComputationIsNextFibonacci | go_examples/webservice/main.go:238-244 | `expensiveComputation(n) == fibonacci(n+1)`: the two programs compute the same sequence one step apart |
| Recurrences.ExpensiveComputationOfTwenty | go_examples/webservice/main.go:184 | the value the compute handler asks for, `expensiveComputation(20)`, is 10946 |
| UserService.GetAllUsers | go_examples/webservice/main.go:66-91 | 405 for any method but GET; otherwise 200 with one entry per stored id: each user value appears exactly as often as there are ids storing it, so every stored user is listed and nothing else is |
| UserService.ProjectMultiplicity | go_examples/webservice/main.go:76-79 | the appending loop `Project` lists a user value once per listed id that stores it |
| UserService.Filter | go_examples/webservice/main.go:156-163 | the scan keeps only users whose name or e-mail contains the query, only stored ones, and every hit among the scanned ids |
| UserService.FilterMultiplicity | go_examples/webservice/main.go:156-163 | the scan lists a user value once per scanned id that stores it when it is a hit, and never when it is not |
| UserService.FilterCount | go_examples/webservice/main.go:156-163 | with each id scanned once, the scan yields exactly one result per hit id |
| UserService.SearchUsers | go_examples/webservice/main.go:143-173 | 405 for any method but GET; 400 for an empty query; otherwise 200 and a stored user is in the results iff its name or e-mail contains the query, nothing else is, each user value appears exactly as often as there are hit ids storing it, and the result count is the number of hit ids |
| UserService.GetUser | go_examples/webservice/main.go:94-140 | 405 for any method but GET and 400 for an unparsable id, both without touching the cache; a cached id is answered from the cache with the cache unchanged; a miss found in storage is answered from storage and cached under its id; a miss not in storage is 404 with the cache unchanged; the cache never loses or changes an entry and gains at most the requested one |
| UserService.CacheHitIgnoresStorage | go_examples/webservice/main.go:109-115 | a cache hit gives the same answer and cache whatever storage holds: storage is not consulted |
| UserService.LookupKeepsCoherence | go_examples/webservice/main.go:118-131 | when every cached user equals the stored user of its id, it stays so after any lookup |
| UserService.CacheIsTransparent | go_examples/webservice/main.go:108-131 | with a coherent cache, every lookup answers exactly what a cache-less lookup in storage would answer |
| UserService.RepeatedLookupIsStable | go_examples/webservice/main.go:108-131 | repeating a lookup gives the same answer and leaves the cache as the first lookup left it |
| UserService.ComputeExpensive | go_examples/webservice/main.go:176-193 | 405 for any method but GET; otherwise 200 with the result 10946 |
| UserService.OnlyGetIsServed | go_examples/webservice/main.go:67-70 | for each of the four handlers (lines 67-70, 95-98, 144-147, 177-180) the answer is 405 iff the method is not GET, and a rejected lookup leaves the cache as it was |
| Contention.StartWorkersCounts | go_examples/concurrency/main.go:112-139 | `StartWorkers`, the concatenation of the three start-up loops (`Launch` of `ReaderCount`, `WriterCount` and 3 workers), starts 5 readers and 3 writers normally, 20 readers and 10 writers under high contention, and 3 incrementers in either mode |
| Contention.HighContentionTicksFaster | go_examples/concurrency/main.go:155-242 | for `ReadIntervalMs` (lines 156-159), `WriteIntervalMs` (196-199) and `IncrementIntervalMs` (239-242), high contention shortens every tick interval (reads 10 to 2 ms, writes 50 to 10 ms, increments 5 to 1 ms), each by a factor of five |
| Contention.Decimal | go_examples/concurrency/main.go:213 | the `%d` rendering of a natural is a non-empty run of digits, one digit long exactly for numbers below 10 |
| Contention.DecimalInjective | go_examples/concurrency/main.go:213 | different numbers render as different digit strings |
| Contention.KeyInjective | go_examples/concurrency/main.go:213 | `Key(n)`, the string `fmt.Sprintf("key-%d", n)` built at lines 173 and 213, gives different keys for different draws |
| Contention.KeysBelowCount | go_examples/concurrency/main.go:173 | the keys of the draws 0 to n-1 are n distinct strings |
| Contention.KeySpace | go_examples/concurrency/main.go:195 | the keys a worker can draw with `rand.Intn(100)` are exactly 100 strings |
| Contention.PayloadSize | go_examples/concurrency/main.go:216 | a writer's payload size `1024 + rand.Intn(9216)` lies in `[1024, 10240)` |
| Contention.WriterStep | go_examples/concurrency/main.go:211-227 | a write sets the drawn key to the new payload, adds no other key and changes no other entry, and keeps the map well formed (only key-space keys, only payloads of a writable size) |
| Contention.ReaderStep | go_examples/concurrency/main.go:171-183 | a read finds a payload exactly when the drawn key is in the map, and then the stored one, whose size on a well-formed map lies in `[1024, 10240)` |
| Contention.ReadAfterWrite | go_examples/concurrency/main.go:171-183 | a read of the key just written sees the new payload, and a read of any other draw sees what it saw before the write |
| Contention.RunWrites | go_examples/concurrency/main.go:206-232 | any sequence of writer ticks keeps the map well formed and never removes a key |
| Contention.SharedDataAfterWrites | go_examples/concurrency/main.go:19 | from the initially empty `sharedData`, after any sequence of writer ticks the map is well formed and holds at most 100 entries |
| Contention.BoundedEntries | go_examples/concurrency/main.go:195-222 | a well-formed shared map never holds more than 100 entries |
| Contention.TotalBytesBounds | go_examples/concurrency/main.go:291-294 | `TotalBytes`, the summed payload length of the map, lies between 1024 and 10239 bytes per entry |
| Contention.DataBounds | go_examples/concurrency/main.go:289-295 | a well-formed map holds at most 100 entries and less than a mebibyte of payload |
| Contention.ReportStats | go_examples/concurrency/main.go:283-298 | the statistics report the counter and the entry count, and on a well-formed map at most 100 entries and between 1 KiB per entry and 1 MiB of data |
| Contention.InitialCounters | go_examples/concurrency/main.go:249 | the counters start balanced, with one local counter per incrementer |
| Contention.IncrementStep | go_examples/concurrency/main.go:256-265 | one tick raises the shared counter and that worker's local counter by exactly one together, changes no other local counter, and keeps the shared counter equal to the sum of the local ones |
| Contention.RunIncrements | go_examples/concurrency/main.go:251-270 | after any sequence of ticks the shared counter has grown by the number of ticks and the counters stay balanced |
| Contention.RunIncrementsLocal | go_examples/concurrency/main.go:256-260 | each local counter grows by the number of ticks its own worker took |
| Contention.CountersAfterTicks | go_examples/concurrency/main.go:249-260 | from the start, after any interleaving of ticks, the shared counter is the number of ticks and the sum of the local counters, and each local counter is its worker's tick count |

## Left out

- HTTP serving, routing, the JSON encoding of answers and its 500 error path, and the `fmt.Sscanf` path parsing: the parse outcome is an input.
- Goroutines, `sync.Mutex`/`RWMutex`, wait groups, the `done` channel, tickers and `time.Sleep`: each locked section is one atomic step, and interleavings are a schedule given as input.
- `processUserData` and the user fields `CreatedAt` and `Data`: they are filled from the clock and random draws and no handler decision reads them.
- UserService.GetAllUsers: does not model that the listing overwrites every user's `Data` with 1024 random bytes, because `Data` is not part of the model.
- UserService.ComputeExpensive: the measured duration is wall-clock time and is not modelled.
- The store's initial contents (users 1 to 1000) built in `main`: start-up data, not request logic.
- `runConcurrencySimulation`'s timeout and block-forever branches, and `reportStats`'s goroutine count: timing and runtime introspection.
- Contention.ReportStats: the division of the byte total into floating-point megabytes is not modelled; the integer total is.
- Integers are unbounded. Go's `int` is 32 or 64 bits wide depending on the platform; the model assumes a 64-bit platform for the figures below.
- Recurrences.Fibonacci: does not model `int` wrap-around, which starts above n = 92 on a 64-bit platform (above n = 46 on a 32-bit one); the only call passes 10.
- Recurrences.ExpensiveComputation: does not model `int` wrap-around, which starts above n = 91 on a 64-bit platform (above n = 45 on a 32-bit one); the only call passes 20.
- Contention.IncrementStep: does not model wrap-around of the counters. The counter lock admits at most about 1000 ticks per second (600 in normal mode, three tickers at 5 ms; at most 1000 under high contention, which holds the lock for 1 ms per tick), so a 64-bit counter wraps only after about 290 million years; on a 32-bit platform the endless HTTP mode would wrap `sharedCounter` after 2^31 ticks, about 25 days at the highest rate.
- Runtime and profiler calls, profile files and flag parsing.
- `go_examples/memoryapp/main.go`: its point is garbage-collector and heap behaviour, reported with floating-point arithmetic.
- The three `main_test.go` files: they exercise functions that are not in the modelled sources.
