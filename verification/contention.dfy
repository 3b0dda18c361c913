/** The sequential content of the lock-contention simulator
    (concurrency/main.go). The goroutines, locks, tickers and sleeps are gone:
    each locked section becomes one atomic step on a value, and every random
    draw becomes a parameter whose range is the range of the draw. */
module Contention {

  import opened Wrappers

  newtype byte = x: int | 0 <= x < 256

  // ---------------------------------------------------------------- set-up

  /** The worker kinds the simulation starts. */
  datatype Role = Reader | Writer | Incrementer

  /** One started goroutine: its kind and the loop index it was given. */
  datatype Worker = Worker(role: Role, id: nat)

  /** Counter incrementers started in either mode. */
  const IncrementerCount: nat := 3

  /** Reader goroutines: 5 normally, 20 under high contention. */
  function ReaderCount(highContention: bool): nat
  {
    if highContention then 20 else 5
  }

  /** Writer goroutines: 3 normally, 10 under high contention. */
  function WriterCount(highContention: bool): nat
  {
    if highContention then 10 else 3
  }

  /** The workers of one kind a start-up loop `for i := 0; i < n; i++` launches. */
  function Launch(role: Role, n: nat): seq<Worker>
  {
    seq(n, i requires 0 <= i => Worker(role, i))
  }

  /** All workers `runConcurrencySimulation` starts, in start order: the
      readers, then the writers, then the incrementers. */
  function StartWorkers(highContention: bool): seq<Worker>
  {
    Launch(Reader, ReaderCount(highContention))
    + Launch(Writer, WriterCount(highContention))
    + Launch(Incrementer, IncrementerCount)
  }

  /** The number of workers of kind `role` in `ws`. */
  function CountRole(ws: seq<Worker>, role: Role): (n: nat)
    ensures n <= |ws|
  {
    if ws == [] then 0
    else (if ws[0].role == role then 1 else 0) + CountRole(ws[1..], role)
  }

  lemma {:induction false} CountRoleAppend(a: seq<Worker>, b: seq<Worker>, role: Role)
    ensures CountRole(a + b, role) == CountRole(a, role) + CountRole(b, role)
  {
    if a != [] {
      assert (a + b)[1..] == a[1..] + b;
      CountRoleAppend(a[1..], b, role);
    } else {
      assert a + b == b;
    }
  }

  lemma {:induction false} CountRoleLaunch(kind: Role, n: nat, role: Role)
    ensures CountRole(Launch(kind, n), role) == if kind == role then n else 0
  {
    if n > 0 {
      assert Launch(kind, n) == Launch(kind, n - 1) + [Worker(kind, n - 1)];
      CountRoleAppend(Launch(kind, n - 1), [Worker(kind, n - 1)], role);
      CountRoleLaunch(kind, n - 1, role);
    }
  }

  /** The start-up loops launch exactly the configured numbers of readers,
      writers and incrementers: 5, 3 and 3 normally; 20, 10 and 3 under high
      contention. */
  lemma {:induction false} StartWorkersCounts(highContention: bool)
    ensures CountRole(StartWorkers(highContention), Reader) == ReaderCount(highContention)
    ensures CountRole(StartWorkers(highContention), Writer) == WriterCount(highContention)
    ensures CountRole(StartWorkers(highContention), Incrementer) == 3
    ensures !highContention ==> CountRole(StartWorkers(highContention), Reader) == 5
    ensures !highContention ==> CountRole(StartWorkers(highContention), Writer) == 3
    ensures highContention ==> CountRole(StartWorkers(highContention), Reader) == 20
    ensures highContention ==> CountRole(StartWorkers(highContention), Writer) == 10
  {
    var rs := Launch(Reader, ReaderCount(highContention));
    var ws := Launch(Writer, WriterCount(highContention));
    var incs := Launch(Incrementer, IncrementerCount);
    forall role: Role
      ensures CountRole(StartWorkers(highContention), role)
              == CountRole(rs, role) + CountRole(ws, role) + CountRole(incs, role)
    {
      CountRoleAppend(rs + ws, incs, role);
      CountRoleAppend(rs, ws, role);
    }
    forall role: Role
      ensures CountRole(rs, role) == if role == Reader then ReaderCount(highContention) else 0
      ensures CountRole(ws, role) == if role == Writer then WriterCount(highContention) else 0
      ensures CountRole(incs, role) == if role == Incrementer then IncrementerCount else 0
    {
      CountRoleLaunch(Reader, ReaderCount(highContention), role);
      CountRoleLaunch(Writer, WriterCount(highContention), role);
      CountRoleLaunch(Incrementer, IncrementerCount, role);
    }
  }

  // ---------------------------------------------------------------- tick intervals

  /** Reader tick interval in milliseconds: 10 normally, 2 under high contention. */
  function ReadIntervalMs(highContention: bool): nat
  {
    if highContention then 2 else 10
  }

  /** Writer tick interval in milliseconds: 50 normally, 10 under high contention. */
  function WriteIntervalMs(highContention: bool): nat
  {
    if highContention then 10 else 50
  }

  /** Incrementer tick interval in milliseconds: 5 normally, 1 under high contention. */
  function IncrementIntervalMs(highContention: bool): nat
  {
    if highContention then 1 else 5
  }

  /** High contention shortens every tick interval, and every worker kind
      ticks five times as often. */
  lemma HighContentionTicksFaster()
    ensures ReadIntervalMs(true) < ReadIntervalMs(false)
    ensures WriteIntervalMs(true) < WriteIntervalMs(false)
    ensures IncrementIntervalMs(true) < IncrementIntervalMs(false)
    ensures ReadIntervalMs(false) == 5 * ReadIntervalMs(true)
    ensures WriteIntervalMs(false) == 5 * WriteIntervalMs(true)
    ensures IncrementIntervalMs(false) == 5 * IncrementIntervalMs(true)
  {
  }

  // ---------------------------------------------------------------- the key space

  /** Readers and writers draw keys with `rand.Intn(keyCount)`. */
  const KeyCount: nat := 100

  function Digit(d: nat): (c: char)
    requires d < 10
    ensures c as int == '0' as int + d
  {
    ('0' as int + d) as char
  }

  /** The decimal rendering `%d` gives a natural number: no sign and no
      leading zeros. */
  function Decimal(n: nat): (s: string)
    ensures 1 <= |s|
    ensures |s| == 1 <==> n < 10
    ensures forall i :: 0 <= i < |s| ==> '0' <= s[i] <= '9'
  {
    if n < 10 then [Digit(n)] else Decimal(n / 10) + [Digit(n % 10)]
  }

  /** Different numbers render differently. */
  lemma {:induction false} DecimalInjective(a: nat, b: nat)
    requires Decimal(a) == Decimal(b)
    ensures a == b
    decreases a
  {
    if a >= 10 && b >= 10 {
      var da, db := Decimal(a), Decimal(b);
      assert da[|da| - 1] == Digit(a % 10);
      assert db[|db| - 1] == Digit(b % 10);
      assert da[..|da| - 1] == Decimal(a / 10);
      assert db[..|db| - 1] == Decimal(b / 10);
      DecimalInjective(a / 10, b / 10);
    }
  }

  /** The map key `fmt.Sprintf("key-%d", n)`. */
  function Key(n: nat): string
  {
    "key-" + Decimal(n)
  }

  lemma KeyInjective(a: nat, b: nat)
    requires Key(a) == Key(b)
    ensures a == b
  {
    assert Key(a)[4..] == Decimal(a);
    assert Key(b)[4..] == Decimal(b);
    DecimalInjective(a, b);
  }

  /** The keys `key-0` … `key-(n-1)`. */
  ghost function KeysBelow(n: nat): set<string>
  {
    set i: nat | i < n :: Key(i)
  }

  /** The n first keys are n distinct strings. */
  lemma {:induction false} KeysBelowCount(n: nat)
    ensures |KeysBelow(n)| == n
  {
    if n > 0 {
      KeysBelowCount(n - 1);
      var last := Key(n - 1);
      assert KeysBelow(n) == KeysBelow(n - 1) + {last} by {
        forall s | s in KeysBelow(n) ensures s in KeysBelow(n - 1) + {last} {
          var i: nat :| i < n && Key(i) == s;
          if i < n - 1 {
            assert s in KeysBelow(n - 1);
          }
        }
      }
      if last in KeysBelow(n - 1) {
        var i: nat :| i < n - 1 && Key(i) == last;
        KeyInjective(i, n - 1);
      }
    }
  }

  /** Every key a reader or a writer can draw: exactly 100 strings. */
  ghost function KeySpace(): (ks: set<string>)
    ensures |ks| == KeyCount
  {
    KeysBelowCount(KeyCount);
    KeysBelow(KeyCount)
  }

  // ---------------------------------------------------------------- shared data

  /** `sharedData`: key to payload. */
  type SharedData = map<string, seq<byte>>

  /** Writers allocate `1024 + rand.Intn(9216)` bytes. */
  const MinPayload: nat := 1024
  const PayloadSpread: nat := 9216

  /** The payload size a writer chooses for the draw `r` of `rand.Intn(9216)`:
      from 1 KiB up to, but excluding, 10 KiB. */
  function PayloadSize(r: int): (size: nat)
    requires 0 <= r < PayloadSpread
    ensures MinPayload <= size < 10240
  {
    MinPayload + r
  }

  /** What the shared map holds at every moment: only keys of the key space,
      and payloads of a size a writer can choose. */
  ghost predicate WellFormedData(shared: SharedData)
  {
    && (forall k :: k in shared ==> k in KeySpace())
    && (forall k :: k in shared ==> MinPayload <= |shared[k]| < 10240)
  }

  /** One tick of `dataWriter` under the write lock. `keyDraw` is
      `rand.Intn(100)`, `sizeDraw` is `rand.Intn(9216)` and `noise` the bytes
      `rand.Read` puts into the new buffer. Only the drawn key changes. */
  function WriterStep(shared: SharedData, keyDraw: int, sizeDraw: int, noise: seq<byte>): (shared': SharedData)
    requires 0 <= keyDraw < KeyCount
    requires 0 <= sizeDraw < PayloadSpread
    requires |noise| == PayloadSize(sizeDraw)
    ensures shared'.Keys == shared.Keys + {Key(keyDraw)}
    ensures shared'[Key(keyDraw)] == noise
    ensures forall k :: k in shared && k != Key(keyDraw) ==> shared'[k] == shared[k]
    ensures WellFormedData(shared) ==> WellFormedData(shared')
  {
    shared[Key(keyDraw) := noise]
  }

  /** One tick of `dataReader` under the read lock: the payload stored under
      the drawn key, if any. The map is only read. */
  function ReaderStep(shared: SharedData, keyDraw: int): (found: Option<seq<byte>>)
    requires 0 <= keyDraw < KeyCount
    ensures found.Some? <==> Key(keyDraw) in shared
    ensures found.Some? ==> found.value == shared[Key(keyDraw)]
    ensures WellFormedData(shared) && found.Some? ==> MinPayload <= |found.value| < 10240
  {
    if Key(keyDraw) in shared then Some(shared[Key(keyDraw)]) else None
  }

  /** A read of the key just written sees the new payload; a read of any
      other draw sees what it saw before the write. */
  lemma ReadAfterWrite(shared: SharedData, keyDraw: int, sizeDraw: int, noise: seq<byte>, other: int)
    requires 0 <= keyDraw < KeyCount
    requires 0 <= sizeDraw < PayloadSpread
    requires |noise| == PayloadSize(sizeDraw)
    requires 0 <= other < KeyCount
    ensures ReaderStep(WriterStep(shared, keyDraw, sizeDraw, noise), keyDraw) == Some(noise)
    ensures other != keyDraw ==>
      ReaderStep(WriterStep(shared, keyDraw, sizeDraw, noise), other) == ReaderStep(shared, other)
  {
    if other != keyDraw && Key(other) == Key(keyDraw) {
      KeyInjective(other, keyDraw);
    }
  }

  /** The draws of one writer tick: `rand.Intn(100)` for the key,
      `rand.Intn(9216)` for the size, and the bytes `rand.Read` produced. */
  datatype WriteDraw = WriteDraw(keyDraw: int, sizeDraw: int, noise: seq<byte>)

  predicate ValidDraw(d: WriteDraw)
  {
    && 0 <= d.keyDraw < KeyCount
    && 0 <= d.sizeDraw < PayloadSpread
    && |d.noise| == PayloadSize(d.sizeDraw)
  }

  /** The writer ticks in the order they took the write lock. */
  function RunWrites(shared: SharedData, draws: seq<WriteDraw>): (shared': SharedData)
    requires forall t :: 0 <= t < |draws| ==> ValidDraw(draws[t])
    ensures WellFormedData(shared) ==> WellFormedData(shared')
    ensures shared.Keys <= shared'.Keys
    decreases |draws|
  {
    if draws == [] then shared
    else
      var d := draws[0];
      assert ValidDraw(draws[0]);
      RunWrites(WriterStep(shared, d.keyDraw, d.sizeDraw, d.noise), draws[1..])
  }

  /** `sharedData` starts empty, so after any interleaving of writer ticks it
      is well formed and holds at most 100 entries. */
  lemma SharedDataAfterWrites(draws: seq<WriteDraw>)
    requires forall t :: 0 <= t < |draws| ==> ValidDraw(draws[t])
    ensures WellFormedData(RunWrites(map[], draws))
    ensures |RunWrites(map[], draws)| <= KeyCount
  {
    assert WellFormedData(map[]);
    BoundedEntries(RunWrites(map[], draws));
  }

  /** Whatever the writers do, the shared map never holds more than 100 entries. */
  lemma BoundedEntries(shared: SharedData)
    requires WellFormedData(shared)
    ensures |shared| <= KeyCount
  {
    assert shared.Keys <= KeySpace();
    SubsetCardinality(shared.Keys, KeySpace());
  }

  lemma SubsetCardinality(a: set<string>, b: set<string>)
    requires a <= b
    ensures |a| <= |b|
  {
    assert b == a + (b - a);
  }

  /** The total number of payload bytes in the map. */
  ghost function TotalBytes(shared: SharedData): nat
    decreases |shared|
  {
    if shared == map[] then 0
    else
      var k :| k in shared;
      |shared[k]| + TotalBytes(shared - {k})
  }

  /** Every payload lies between 1 KiB and 10 KiB, so the total lies between
      1024 and 10239 bytes per entry. */
  lemma {:induction false} TotalBytesBounds(shared: SharedData)
    requires forall k :: k in shared ==> MinPayload <= |shared[k]| < 10240
    ensures MinPayload * |shared| <= TotalBytes(shared) <= 10239 * |shared|
    decreases |shared|
  {
    if shared != map[] {
      var k :| k in shared && TotalBytes(shared) == |shared[k]| + TotalBytes(shared - {k});
      assert |shared - {k}| == |shared| - 1;
      TotalBytesBounds(shared - {k});
    }
  }

  /** A well-formed map holds at most 100 payloads of at most 10239 bytes
      each: less than a mebibyte in all. */
  lemma DataBounds(shared: SharedData)
    ensures WellFormedData(shared) ==>
      |shared| <= KeyCount && MinPayload * |shared| <= TotalBytes(shared) < 1024 * 1024
  {
    if WellFormedData(shared) {
      BoundedEntries(shared);
      TotalBytesBounds(shared);
    }
  }

  /** The integer figures `reportStats` prints. */
  datatype Stats = Stats(counter: int, entries: nat, totalBytes: nat)

  /** One tick of `reportStats`: the counter, the number of map entries and
      the payload bytes in the map. The division into megabytes is not
      modelled. On a well-formed map there are at most 100 entries and less
      than a mebibyte of data. */
  ghost function ReportStats(sharedCounter: int, shared: SharedData): (s: Stats)
    ensures s.counter == sharedCounter && s.entries == |shared|
    ensures WellFormedData(shared) ==>
      s.entries <= KeyCount && MinPayload * s.entries <= s.totalBytes < 1024 * 1024
  {
    DataBounds(shared);
    Stats(sharedCounter, |shared|, TotalBytes(shared))
  }

  // ---------------------------------------------------------------- counters

  /** `sharedCounter` and the `localCounter` of each incrementer, by id. */
  datatype Counters = Counters(shared: int, local: seq<int>)

  function Sum(s: seq<int>): int
  {
    if s == [] then 0 else s[0] + Sum(s[1..])
  }

  /** The shared counter is the sum of the local ones. */
  ghost predicate Balanced(c: Counters)
  {
    c.shared == Sum(c.local)
  }

  /** All counters zero, one local counter per incrementer. */
  function InitialCounters(): (c: Counters)
    ensures Balanced(c) && |c.local| == IncrementerCount
  {
    Counters(0, [0, 0, 0])
  }

  lemma {:induction false} SumIncrement(s: seq<int>, i: nat)
    requires i < |s|
    ensures Sum(s[i := s[i] + 1]) == Sum(s) + 1
  {
    if i > 0 {
      assert s[i := s[i] + 1][1..] == s[1..][i - 1 := s[i] + 1];
      SumIncrement(s[1..], i - 1);
    }
  }

  /** One tick of incrementer `id` under the counter lock: the shared counter
      and that worker's local counter go up by one together, nothing else
      changes, and the counters stay balanced. The `fibonacci(10)` computed
      after releasing the lock has no effect on the counters. */
  function IncrementStep(c: Counters, id: nat): (c': Counters)
    requires id < |c.local|
    ensures c'.shared == c.shared + 1
    ensures |c'.local| == |c.local| && c'.local[id] == c.local[id] + 1
    ensures forall j :: 0 <= j < |c.local| && j != id ==> c'.local[j] == c.local[j]
    ensures Balanced(c) ==> Balanced(c')
  {
    SumIncrement(c.local, id);
    Counters(c.shared + 1, c.local[id := c.local[id] + 1])
  }

  /** The ticks of the incrementers in the order they took the lock. */
  function RunIncrements(c: Counters, schedule: seq<nat>): (c': Counters)
    requires forall t :: 0 <= t < |schedule| ==> schedule[t] < |c.local|
    ensures |c'.local| == |c.local|
    ensures c'.shared == c.shared + |schedule|
    ensures Balanced(c) ==> Balanced(c')
    decreases |schedule|
  {
    if schedule == [] then c
    else RunIncrements(IncrementStep(c, schedule[0]), schedule[1..])
  }

  /** Each local counter grows by the number of ticks its worker took. */
  lemma {:induction false} RunIncrementsLocal(c: Counters, schedule: seq<nat>, id: nat)
    requires forall t :: 0 <= t < |schedule| ==> schedule[t] < |c.local|
    requires id < |c.local|
    ensures RunIncrements(c, schedule).local[id] == c.local[id] + multiset(schedule)[id]
    decreases |schedule|
  {
    if schedule != [] {
      assert schedule == [schedule[0]] + schedule[1..];
      RunIncrementsLocal(IncrementStep(c, schedule[0]), schedule[1..], id);
    }
  }

  /** From the start of the simulation, after any interleaving of ticks the
      shared counter equals the sum of the local counters and counts every
      tick, and each local counter counts its own worker's ticks. */
  lemma CountersAfterTicks(schedule: seq<nat>)
    requires forall t :: 0 <= t < |schedule| ==> schedule[t] < IncrementerCount
    ensures Balanced(RunIncrements(InitialCounters(), schedule))
    ensures RunIncrements(InitialCounters(), schedule).shared == |schedule|
    ensures forall id :: 0 <= id < IncrementerCount ==>
      RunIncrements(InitialCounters(), schedule).local[id] == multiset(schedule)[id]
  {
    forall id | 0 <= id < IncrementerCount
      ensures RunIncrements(InitialCounters(), schedule).local[id] == multiset(schedule)[id]
    {
      RunIncrementsLocal(InitialCounters(), schedule, id);
    }
  }
}
