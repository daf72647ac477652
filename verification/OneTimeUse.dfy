/** Unique numbers handed out in chunks. Every thread of every process draws from its own
    chunk; a used-up chunk is replaced by advancing one counter kept in a file. Reading the
    counter and writing it back are separate events: the object's own monitor keeps the
    threads of one process apart, and the file lock, when it is on, the processes. Threads
    exit, processes die and start again, and what they had not used is discarded.

    Before every reservation a process doubles the size it reserves: its rate bucket has
    depth zero, so every use overflows it (LeakyBucket.DepthZeroAlwaysOverflows), as long as its
    rate, which is never set, is not a division by zero. The size is an int, and here it wraps
    as one. */
module OneTimeUse {
  import opened Distinct
  import opened FileBackedNumber

  type ProcessId = nat
  type ThreadId = nat
  datatype Agent = Agent(process: ProcessId, thread: ThreadId)

  type Word = x: nat | x < TWO_TO_64

  /** A thread's chunk: it may still issue low, low + 1, ..., high - 1. */
  datatype Chunk = Chunk(low: Word, high: Word)

  /** A counter read that has not been written back yet. */
  datatype Pending = Pending(who: Agent, value: int, amount: int)

  const DEFAULT_RESERVE := 16
  const MAX_RESERVATIONS := 26

  function Wrap32(x: int): int {
    (x + 0x8000_0000) % 0x1_0000_0000 - 0x8000_0000
  }

  function Wrap64(x: int): Word {
    x % TWO_TO_64
  }

  /** The threads in due have just reserved a chunk and are bound to issue from it, even if it
      is empty. */
  datatype State = State(
    locking: bool, text: string,
    chunks: map<Agent, Chunk>, reserve: map<ProcessId, int>, pending: map<ProcessId, Pending>, due: set<Agent>,
    issued: seq<nat>, discarded: set<nat>)
  {
    function ChunkOf(a: Agent): Chunk {
      if a in chunks then chunks[a] else Chunk(0, 0)
    }

    function ReserveOf(p: ProcessId): int {
      if p in reserve then reserve[p] else DEFAULT_RESERVE
    }

    predicate HasChunk(a: Agent) {
      ChunkOf(a).low < ChunkOf(a).high
    }

    predicate Reserved(a: Agent, n: nat) {
      ChunkOf(a).low <= n < ChunkOf(a).high
    }

    function Counter(): int {
      ReadBack(text)
    }

    /** How much a process will reserve next. */
    function Growth(p: ProcessId): int {
      Wrap32(2 * ReserveOf(p))
    }
  }

  datatype Event =
    | Issue(a: Agent)
    | ReadCounter(a: Agent)
    | WriteCounter(a: Agent)
    | ExitThread(a: Agent)
    | Restart(p: ProcessId)

  predicate Enabled(s: State, e: Event) {
    match e
    case Issue(a) => a in s.due || s.HasChunk(a)
    case ReadCounter(a) =>
      && a !in s.due && !s.HasChunk(a)
      && a.process !in s.pending
      && (s.locking ==> s.pending == map[])
    case WriteCounter(a) => a.process in s.pending && s.pending[a.process].who == a
    case ExitThread(a) => a !in s.due && !(a.process in s.pending && s.pending[a.process].who == a)
    case Restart(p) => true
  }

  function Apply(s: State, e: Event): State
    requires Enabled(s, e)
  {
    match e
    case Issue(a) =>
      var c := s.ChunkOf(a);
      s.(issued := s.issued + [c.low], chunks := s.chunks[a := Chunk(Wrap64(c.low + 1), c.high)], due := s.due - {a})
    case ReadCounter(a) =>
      var amount := s.Growth(a.process);
      s.(reserve := s.reserve[a.process := amount],
         pending := s.pending[a.process := Pending(a, s.Counter(), amount)])
    case WriteCounter(a) =>
      var d := s.pending[a.process];
      s.(text := Overwrite(s.text, Decimal(Wrap64(d.value + d.amount))),
         pending := s.pending - {a.process},
         chunks := s.chunks[a := Chunk(Wrap64(d.value), Wrap64(d.value + d.amount))],
         due := s.due + {a})
    case ExitThread(a) =>
      s.(discarded := s.discarded + Left(s, a), chunks := s.chunks[a := Chunk(0, 0)])
    case Restart(p) =>
      s.(discarded := s.discarded + LeftBy(s, p),
         chunks := map a | a in s.chunks && a.process != p :: s.chunks[a],
         reserve := s.reserve - {p}, pending := s.pending - {p},
         due := set a | a in s.due && a.process != p)
  }

  /** The numbers a thread, or a whole process, gives up unused. */
  function Left(s: State, a: Agent): set<nat> {
    set n: nat | n < s.ChunkOf(a).high && s.Reserved(a, n)
  }

  function LeftBy(s: State, p: ProcessId): set<nat> {
    set a, n | a in s.chunks && a.process == p && n in Left(s, a) :: n
  }

  function Start(locking: bool, text: string): State {
    State(locking, text, map[], map[], map[], {}, [], {})
  }

  predicate IsRun(locking: bool, text: string, es: seq<Event>)
    decreases |es|, 0
  {
    es == [] ||
    (IsRun(locking, text, es[..|es| - 1]) && Enabled(Exec(locking, text, es[..|es| - 1]), es[|es| - 1]))
  }

  function Exec(locking: bool, text: string, es: seq<Event>): State
    requires IsRun(locking, text, es)
    decreases |es|, 1
  {
    if es == [] then Start(locking, text) else Apply(Exec(locking, text, es[..|es| - 1]), es[|es| - 1])
  }

  function ProcessOf(e: Event): ProcessId {
    if e.Restart? then e.p else e.a.process
  }

  /** How often p has reserved since it last started. */
  function Reservations(es: seq<Event>, p: ProcessId): nat {
    if es == [] then 0
    else
      var n := |es| - 1;
      if es[n] == Restart(p) then 0
      else Reservations(es[..n], p) + if es[n].ReadCounter? && es[n].a.process == p then 1 else 0
  }

  /** No process ever reserves more than k times between two starts. */
  predicate AtMost(es: seq<Event>, k: nat) {
    es == [] || (AtMost(es[..|es| - 1], k) && Reservations(es, ProcessOf(es[|es| - 1])) <= k)
  }

  /** The counter has room for what is about to be reserved. */
  predicate HasRoom(s: State, e: Event) {
    e.ReadCounter? ==> s.Counter() + s.Growth(e.a.process) <= LONG_MAX
  }

  predicate AlwaysHasRoom(locking: bool, text: string, es: seq<Event>)
    requires IsRun(locking, text, es)
  {
    es == [] ||
    var n := |es| - 1;
    AlwaysHasRoom(locking, text, es[..n]) && HasRoom(Exec(locking, text, es[..n]), es[n])
  }

  // ---- Safety ----

  /** Every number from init up to the counter is in exactly one of three places, and only one
      thread can have it reserved; every other number is nowhere. */
  ghost predicate Accounted(s: State, init: nat, n: nat) {
    && (forall a, b :: s.Reserved(a, n) && s.Reserved(b, n) ==> a == b)
    && (forall a :: s.Reserved(a, n) ==> n !in s.issued && n !in s.discarded)
    && (n in s.issued ==> n !in s.discarded)
    && (n in s.issued || n in s.discarded || (exists a :: s.Reserved(a, n)) <==> init <= n < s.Counter())
  }

  ghost predicate CounterInv(s: State, init: nat, p0: ProcessId) {
    && init <= s.Counter() <= LONG_MAX && Holds(s.text, s.Counter())
    && (s.locking || s.pending.Keys <= {p0})
    && (forall p, q :: p in s.pending && q in s.pending ==> p == q)
    && (forall p :: p in s.pending ==>
          var d := s.pending[p];
          d.who.process == p && d.value == s.Counter() && d.amount > 0 && d.value + d.amount <= LONG_MAX
          && !s.HasChunk(d.who))
    && (forall a :: a in s.due ==> s.HasChunk(a))
  }

  ghost predicate Inv(s: State, init: nat, p0: ProcessId) {
    && CounterInv(s, init, p0)
    && NoDuplicates(s.issued)
    && forall n: nat :: Accounted(s, init, n)
  }

  /** The reservation moves the counter forward and within its range. */
  predicate Advances(s: State, e: Event) {
    HasRoom(s, e) && (e.ReadCounter? ==> s.Growth(e.a.process) > 0)
  }

  /** What a step needs to be safe: the lock or one process, and a counter that advances. */
  predicate Safe(s: State, e: Event, p0: ProcessId) {
    Enabled(s, e) && Advances(s, e) && (s.locking || ProcessOf(e) == p0)
  }

  lemma ReadKeepsCounter(s: State, a: Agent, init: nat, p0: ProcessId)
    requires CounterInv(s, init, p0) && Safe(s, ReadCounter(a), p0)
    ensures CounterInv(Apply(s, ReadCounter(a)), init, p0)
  {
    var s' := Apply(s, ReadCounter(a));
    assert forall p :: p in s'.pending ==> p == a.process;
    assert forall b :: s'.HasChunk(b) == s.HasChunk(b);
  }

  lemma WriteMovesCounter(s: State, a: Agent, init: nat, p0: ProcessId)
    requires CounterInv(s, init, p0) && Enabled(s, WriteCounter(a))
    ensures var d, s' := s.pending[a.process], Apply(s, WriteCounter(a));
            s'.Counter() == s.Counter() + d.amount && Holds(s'.text, s'.Counter())
            && s'.ChunkOf(a) == Chunk(d.value, d.value + d.amount)
  {
    var d := s.pending[a.process];
    var n, i: nat := d.value, d.amount;
    assert Wrap64(n) == n && Wrap64(n + i) == n + i;
    IncrementHeld(s.text, n, i);
    HeldReadsBack(Apply(s, WriteCounter(a)).text, n + i);
  }

  lemma WriteKeepsCounter(s: State, a: Agent, init: nat, p0: ProcessId)
    requires CounterInv(s, init, p0) && Safe(s, WriteCounter(a), p0)
    ensures CounterInv(Apply(s, WriteCounter(a)), init, p0)
  {
    var s' := Apply(s, WriteCounter(a));
    WriteMovesCounter(s, a, init, p0);
    assert s'.pending == map[];
    assert forall b :: b != a ==> s'.HasChunk(b) == s.HasChunk(b);
  }

  lemma IssueKeepsCounter(s: State, a: Agent, init: nat, p0: ProcessId)
    requires CounterInv(s, init, p0) && Enabled(s, Issue(a))
    ensures CounterInv(Apply(s, Issue(a)), init, p0)
  {
    var s' := Apply(s, Issue(a));
    assert s.HasChunk(a);
    assert forall b :: b != a ==> s'.HasChunk(b) == s.HasChunk(b);
    assert forall p :: p in s.pending ==> s.pending[p].who != a;
  }

  lemma LeaveKeepsCounter(s: State, e: Event, init: nat, p0: ProcessId)
    requires CounterInv(s, init, p0) && Enabled(s, e) && (e.ExitThread? || e.Restart?)
    ensures CounterInv(Apply(s, e), init, p0)
  {
    var s' := Apply(s, e);
    assert forall b :: s'.HasChunk(b) ==> s.HasChunk(b);
    assert forall b :: b in s'.due ==> s'.HasChunk(b) == s.HasChunk(b);
    assert forall p :: p in s'.pending ==> p in s.pending;
  }

  // What each event does to the account of one number n.
  lemma IssueKeepsAccount(s: State, a: Agent, init: nat, n: nat)
    requires s.HasChunk(a) && Accounted(s, init, n)
    ensures Accounted(Apply(s, Issue(a)), init, n)
  {
    var s' := Apply(s, Issue(a));
    var low := s.ChunkOf(a).low;
    assert s.Reserved(a, low) && Wrap64(low + 1) == low + 1;
    assert forall b :: s'.Reserved(b, n) <==> s.Reserved(b, n) && !(b == a && n == low);
    assert n in s'.issued <==> n in s.issued || n == low;
    if n != low && (exists b :: s.Reserved(b, n)) {
      var b :| s.Reserved(b, n);
      assert s'.Reserved(b, n);
    }
  }

  lemma ReadKeepsAccount(s: State, a: Agent, init: nat, n: nat)
    requires Enabled(s, ReadCounter(a)) && Accounted(s, init, n)
    ensures Accounted(Apply(s, ReadCounter(a)), init, n)
  {
    var s' := Apply(s, ReadCounter(a));
    assert forall b :: s'.Reserved(b, n) <==> s.Reserved(b, n);
  }

  lemma WriteKeepsAccount(s: State, a: Agent, init: nat, p0: ProcessId, n: nat)
    requires CounterInv(s, init, p0) && Safe(s, WriteCounter(a), p0) && Accounted(s, init, n)
    ensures Accounted(Apply(s, WriteCounter(a)), init, n)
  {
    var s' := Apply(s, WriteCounter(a));
    WriteMovesCounter(s, a, init, p0);
    var d := s.pending[a.process];
    assert !s.Reserved(a, n);
    assert forall b :: s'.Reserved(b, n) <==> s.Reserved(b, n) || (b == a && d.value <= n < d.value + d.amount);
    if exists b :: s.Reserved(b, n) {
      var b :| s.Reserved(b, n);
      assert s'.Reserved(b, n);
    }
  }

  lemma ExitKeepsAccount(s: State, a: Agent, init: nat, n: nat)
    requires Enabled(s, ExitThread(a)) && Accounted(s, init, n)
    ensures Accounted(Apply(s, ExitThread(a)), init, n)
  {
    var s' := Apply(s, ExitThread(a));
    assert forall b :: s'.Reserved(b, n) <==> s.Reserved(b, n) && b != a;
    assert n in s'.discarded <==> n in s.discarded || s.Reserved(a, n);
    if exists b :: b != a && s.Reserved(b, n) {
      var b :| b != a && s.Reserved(b, n);
      assert s'.Reserved(b, n);
    }
  }

  lemma RestartKeepsAccount(s: State, p: ProcessId, init: nat, n: nat)
    requires Accounted(s, init, n)
    ensures Accounted(Apply(s, Restart(p)), init, n)
  {
    var s' := Apply(s, Restart(p));
    assert forall b: Agent :: s'.Reserved(b, n) <==> s.Reserved(b, n) && b.process != p;
    assert n in s'.discarded <==> n in s.discarded || exists b: Agent :: b.process == p && s.Reserved(b, n) by {
      if b: Agent :| b.process == p && s.Reserved(b, n) {
        assert b in s.chunks && n in Left(s, b);
      }
    }
    if b: Agent :| b.process != p && s.Reserved(b, n) {
      assert s'.Reserved(b, n);
    }
  }

  lemma {:induction false} StepKeepsCounter(s: State, e: Event, init: nat, p0: ProcessId)
    requires CounterInv(s, init, p0) && Safe(s, e, p0)
    ensures CounterInv(Apply(s, e), init, p0)
  {
    match e
    case Issue(a) => IssueKeepsCounter(s, a, init, p0);
    case ReadCounter(a) => ReadKeepsCounter(s, a, init, p0);
    case WriteCounter(a) => WriteKeepsCounter(s, a, init, p0);
    case _ => LeaveKeepsCounter(s, e, init, p0);
  }

  lemma StepKeepsAccount(s: State, e: Event, init: nat, p0: ProcessId, n: nat)
    requires CounterInv(s, init, p0) && Safe(s, e, p0) && Accounted(s, init, n)
    ensures Accounted(Apply(s, e), init, n)
  {
    match e
    case Issue(a) => IssueKeepsAccount(s, a, init, n);
    case ReadCounter(a) => ReadKeepsAccount(s, a, init, n);
    case WriteCounter(a) => WriteKeepsAccount(s, a, init, p0, n);
    case ExitThread(a) => ExitKeepsAccount(s, a, init, n);
    case Restart(p) => RestartKeepsAccount(s, p, init, n);
  }

  lemma IssueIsNew(s: State, a: Agent, init: nat)
    requires s.HasChunk(a) && NoDuplicates(s.issued) && Accounted(s, init, s.ChunkOf(a).low)
    ensures NoDuplicates(Apply(s, Issue(a)).issued)
  {
    assert s.Reserved(a, s.ChunkOf(a).low);
    AppendDistinct(s.issued, s.ChunkOf(a).low);
  }

  lemma StepKeepsInv(s: State, e: Event, init: nat, p0: ProcessId)
    requires Inv(s, init, p0) && Safe(s, e, p0)
    ensures Inv(Apply(s, e), init, p0)
  {
    StepKeepsCounter(s, e, init, p0);
    if e.Issue? {
      assert Accounted(s, init, s.ChunkOf(e.a).low);
      IssueIsNew(s, e.a, init);
    }
    forall n: nat ensures Accounted(Apply(s, e), init, n) {
      assert Accounted(s, init, n);
      StepKeepsAccount(s, e, init, p0, n);
    }
  }

  // ---- The doubling reserve ----

  /** What a process reserves at its k-th reservation since it started. */
  function ReserveAfter(k: nat): int {
    if k == 0 then DEFAULT_RESERVE else Wrap32(2 * ReserveAfter(k - 1))
  }

  lemma ReserveStep(k: nat)
    ensures ReserveAfter(k + 1) == Wrap32(2 * ReserveAfter(k))
  {
  }

  lemma StepReserve(s: State, e: Event, p: ProcessId)
    requires Enabled(s, e)
    ensures Apply(s, e).ReserveOf(p) ==
      if e == Restart(p) then DEFAULT_RESERVE
      else if e.ReadCounter? && e.a.process == p then s.Growth(p)
      else s.ReserveOf(p)
  {
  }

  lemma {:induction false} ReserveFollowsRun(locking: bool, text: string, es: seq<Event>, p: ProcessId)
    requires IsRun(locking, text, es)
    ensures Exec(locking, text, es).ReserveOf(p) == ReserveAfter(Reservations(es, p))
  {
    if es == [] {
    } else {
      ReserveFollowsRun(locking, text, es[..|es| - 1], p);
      StepReserve(Exec(locking, text, es[..|es| - 1]), es[|es| - 1], p);
      ReserveStep(Reservations(es[..|es| - 1], p));
    }
  }

  function Pow2(k: nat): nat {
    if k == 0 then 1 else 2 * Pow2(k - 1)
  }

  lemma Halve(x: int, k: nat)
    requires 0 < k && 0 < x && x * Pow2(k) == 0x4000_0000
    ensures 2 * x * Pow2(k - 1) == 0x4000_0000 && 2 * x <= 0x4000_0000
  {
    assert Pow2(k) == 2 * Pow2(k - 1);
    var y := Pow2(k - 1);
    assert 2 * x * y == x * (2 * y);
    assert y > 0;
    AtLeastOnce(2 * x, y);
  }

  lemma AtLeastOnce(x: nat, y: nat)
    requires y > 0
    ensures x <= x * y
  {
    assert x * y == x + x * (y - 1);
  }

  // While it lasts, every reservation is twice the one before.
  lemma {:induction false} ReserveDoubles(k: nat)
    requires k <= MAX_RESERVATIONS
    ensures 0 < ReserveAfter(k) <= 0x4000_0000
    ensures ReserveAfter(k) * Pow2(MAX_RESERVATIONS - k) == 0x4000_0000
    ensures k < MAX_RESERVATIONS ==> ReserveAfter(k + 1) == 2 * ReserveAfter(k)
  {
    if k == 0 {
      Pow2Of26();
    } else {
      ReserveDoubles(k - 1);
      Halve(ReserveAfter(k - 1), MAX_RESERVATIONS - k + 1);
    }
    if k < MAX_RESERVATIONS {
      Halve(ReserveAfter(k), MAX_RESERVATIONS - k);
      WrapSmall(2 * ReserveAfter(k));
    }
  }

  lemma WrapSmall(x: int)
    requires -0x8000_0000 <= x < 0x8000_0000
    ensures Wrap32(x) == x
  {
  }

  lemma Pow2Of26()
    ensures Pow2(26) == 0x400_0000
  {
    assert Pow2(10) == 1024;
    assert Pow2(20) == 0x10_0000;
  }

  lemma WrapLarge()
    ensures Wrap32(2 * 0x4000_0000) == -0x8000_0000 && Wrap32(2 * -0x8000_0000) == 0 == Wrap32(2 * 0)
  {
  }

  // The 27th reservation leaves the range of an int and turns negative; from the 28th on
  // nothing is reserved.
  lemma {:induction false} ReserveRunsOut(k: nat)
    requires k > MAX_RESERVATIONS
    ensures ReserveAfter(k) == if k == MAX_RESERVATIONS + 1 then -0x8000_0000 else 0
  {
    ReserveStep(k - 1);
    WrapLarge();
    if k == MAX_RESERVATIONS + 1 {
      LastDoubling(k - 1);
    } else {
      ReserveRunsOut(k - 1);
    }
  }

  lemma {:induction false} LastDoubling(k: nat)
    requires k == MAX_RESERVATIONS
    ensures ReserveAfter(k) == 0x4000_0000
  {
    ReserveDoubles(k);
    assert Pow2(MAX_RESERVATIONS - k) == 1;
  }

  lemma ReservePositive(k: nat)
    ensures ReserveAfter(k) > 0 <==> k <= MAX_RESERVATIONS
  {
    if k <= MAX_RESERVATIONS {
      ReserveDoubles(k);
    } else {
      ReserveRunsOut(k);
    }
  }

  lemma {:induction false} GrowthFollowsRun(locking: bool, text: string, es: seq<Event>, p: ProcessId)
    requires IsRun(locking, text, es)
    ensures Exec(locking, text, es).Growth(p) == ReserveAfter(Reservations(es, p) + 1)
  {
    ReserveFollowsRun(locking, text, es, p);
  }

  // ---- Uniqueness ----

  ghost predicate OneProcess(es: seq<Event>, p0: ProcessId) {
    forall i :: 0 <= i < |es| ==> ProcessOf(es[i]) == p0
  }

  lemma {:induction false} LastStepIsSafe(locking: bool, text: string, es: seq<Event>, p0: ProcessId)
    requires es != [] && IsRun(locking, text, es) && AlwaysHasRoom(locking, text, es)
    requires AtMost(es, MAX_RESERVATIONS) && (locking || OneProcess(es, p0))
    requires Exec(locking, text, es[..|es| - 1]).locking == locking
    ensures Safe(Exec(locking, text, es[..|es| - 1]), es[|es| - 1], p0)
  {
    var front, e := es[..|es| - 1], es[|es| - 1];
    if e.ReadCounter? {
      GrowthFollowsRun(locking, text, front, e.a.process);
      ReservePositive(Reservations(es, e.a.process));
    }
  }

  lemma {:induction false} RunKeepsInv(locking: bool, text: string, es: seq<Event>, init: nat, p0: ProcessId)
    requires IsRun(locking, text, es) && Holds(text, init) && init <= LONG_MAX
    requires AtMost(es, MAX_RESERVATIONS) && AlwaysHasRoom(locking, text, es)
    requires locking || OneProcess(es, p0)
    ensures Inv(Exec(locking, text, es), init, p0) && Exec(locking, text, es).locking == locking
  {
    if es == [] {
      HeldReadsBack(text, init);
    } else {
      RunKeepsInv(locking, text, es[..|es| - 1], init, p0);
      LastStepIsSafe(locking, text, es, p0);
      StepKeepsInv(Exec(locking, text, es[..|es| - 1]), es[|es| - 1], init, p0);
    }
  }

  // With the file lock on, or with one process only, and with at most 26 reservations by a
  // process between two starts, no number is ever issued twice, by any threads, processes and
  // restarts, and the numbers from the initial value up to the counter are split without
  // overlap into issued, reserved by one thread, and discarded.
  lemma {:induction false} NumbersAreUnique(locking: bool, text: string, es: seq<Event>, init: nat, p0: ProcessId)
    requires IsRun(locking, text, es) && Holds(text, init) && init <= LONG_MAX
    requires AtMost(es, MAX_RESERVATIONS) && AlwaysHasRoom(locking, text, es)
    requires locking || OneProcess(es, p0)
    ensures NoDuplicates(Exec(locking, text, es).issued)
    ensures forall n: nat :: Accounted(Exec(locking, text, es), init, n)
    ensures var s := Exec(locking, text, es); 0 <= s.Counter() && Holds(s.text, s.Counter())
  {
    RunKeepsInv(locking, text, es, init, p0);
  }

  // ---- What goes wrong otherwise ----

  lemma {:induction false} RunOneMore(locking: bool, text: string, es: seq<Event>, e: Event)
    requires IsRun(locking, text, es) && Enabled(Exec(locking, text, es), e)
    ensures IsRun(locking, text, es + [e])
    ensures Exec(locking, text, es + [e]) == Apply(Exec(locking, text, es), e)
    ensures AlwaysHasRoom(locking, text, es + [e]) <==>
      AlwaysHasRoom(locking, text, es) && HasRoom(Exec(locking, text, es), e)
  {
    var longer := es + [e];
    assert longer[..|longer| - 1] == es && longer[|longer| - 1] == e;
  }

  lemma {:induction false} CountOneMore(es: seq<Event>, e: Event, p: ProcessId, k: nat)
    ensures Reservations(es + [e], p) ==
      if e == Restart(p) then 0 else Reservations(es, p) + if e.ReadCounter? && e.a.process == p then 1 else 0
    ensures AtMost(es + [e], k) <==> AtMost(es, k) && Reservations(es + [e], ProcessOf(e)) <= k
  {
    var longer := es + [e];
    assert longer[..|longer| - 1] == es && longer[|longer| - 1] == e;
  }

  /** A thread starts anew, reserves and issues one number. */
  function Round(a: Agent): seq<Event> {
    [ExitThread(a), ReadCounter(a), WriteCounter(a), Issue(a)]
  }

  /** Nobody is about to write the counter back, and a is not bound to issue. */
  predicate Quiet(s: State, a: Agent) {
    s.pending == map[] && a !in s.due
  }

  /** What one undisturbed round of a makes of the state. */
  predicate IsAfterRound(s: State, a: Agent, s': State) {
    && Quiet(s', a)
    && s'.reserve == s.reserve[a.process := s.Growth(a.process)]
    && s'.text == Incremented(s.text, s.Growth(a.process))
    && s'.issued == s.issued + [Wrap64(s.Counter())]
  }

  lemma RoundSteps(s: State, a: Agent) returns (s1: State, s2: State, s3: State, s4: State)
    requires Quiet(s, a)
    ensures Enabled(s, ExitThread(a)) && s1 == Apply(s, ExitThread(a))
    ensures Enabled(s1, ReadCounter(a)) && s2 == Apply(s1, ReadCounter(a))
    ensures Enabled(s2, WriteCounter(a)) && s3 == Apply(s2, WriteCounter(a))
    ensures Enabled(s3, Issue(a)) && s4 == Apply(s3, Issue(a))
    ensures HasRoom(s1, ReadCounter(a)) <==> s.Counter() + s.Growth(a.process) <= LONG_MAX
    ensures IsAfterRound(s, a, s4)
  {
    s1 := Apply(s, ExitThread(a));
    s2 := Apply(s1, ReadCounter(a));
    s3 := Apply(s2, WriteCounter(a));
    s4 := Apply(s3, Issue(a));
    assert s2.pending[a.process] == Pending(a, s.Counter(), s.Growth(a.process));
    assert s4.pending == map[];
    assert s3.ChunkOf(a).low == Wrap64(s.Counter());
  }

  lemma {:induction false} CountRound(es: seq<Event>, a: Agent, p: ProcessId, k: nat)
    ensures Reservations(es + Round(a), p) == Reservations(es, p) + if p == a.process then 1 else 0
    ensures AtMost(es, k) && Reservations(es, a.process) < k ==> AtMost(es + Round(a), k)
  {
    var e1 := es + [ExitThread(a)];
    var e2 := e1 + [ReadCounter(a)];
    var e3 := e2 + [WriteCounter(a)];
    assert es + Round(a) == e3 + [Issue(a)];
    CountOneMore(es, ExitThread(a), p, k);
    CountOneMore(e1, ReadCounter(a), p, k);
    CountOneMore(e2, WriteCounter(a), p, k);
    CountOneMore(e3, Issue(a), p, k);
    CountOneMore(es, ExitThread(a), a.process, k);
    CountOneMore(e1, ReadCounter(a), a.process, k);
    CountOneMore(e2, WriteCounter(a), a.process, k);
    CountOneMore(e3, Issue(a), a.process, k);
  }

  lemma {:induction false} RunRound(locking: bool, text: string, es: seq<Event>, a: Agent)
    requires IsRun(locking, text, es) && Quiet(Exec(locking, text, es), a)
    ensures IsRun(locking, text, es + Round(a))
    ensures var s := Exec(locking, text, es);
            IsAfterRound(s, a, Exec(locking, text, es + Round(a)))
            && (AlwaysHasRoom(locking, text, es + Round(a)) <==>
                AlwaysHasRoom(locking, text, es) && s.Counter() + s.Growth(a.process) <= LONG_MAX)
  {
    var s1, s2, s3, s4 := RoundSteps(Exec(locking, text, es), a);
    var e1 := es + [ExitThread(a)];
    var e2 := e1 + [ReadCounter(a)];
    var e3 := e2 + [WriteCounter(a)];
    assert es + Round(a) == e3 + [Issue(a)];
    RunOneMore(locking, text, es, ExitThread(a));
    RunOneMore(locking, text, e1, ReadCounter(a));
    RunOneMore(locking, text, e2, WriteCounter(a));
    RunOneMore(locking, text, e3, Issue(a));
  }

  lemma {:induction false} RepeatsAreDuplicates<T>(s: seq<T>, i: nat, j: nat)
    requires i < j < |s| && s[i] == s[j]
    ensures !NoDuplicates(s)
  {
    if i == 0 {
      assert s[j] == s[1..][j - 1];
    } else {
      RepeatsAreDuplicates(s[1..], i - 1, j - 1);
    }
  }

  // A thread whose process reserves nothing any more issues the same number in its third and
  // fourth round, if not before.
  lemma {:induction false} NothingReservedRepeats(locking: bool, text: string, es: seq<Event>, a: Agent)
      returns (longer: seq<Event>)
    requires IsRun(locking, text, es) && Quiet(Exec(locking, text, es), a)
    requires Exec(locking, text, es).ReserveOf(a.process) == 0
    ensures longer == es + Round(a) + Round(a) + Round(a) + Round(a)
    ensures IsRun(locking, text, longer) && !NoDuplicates(Exec(locking, text, longer).issued)
  {
    var s0 := Exec(locking, text, es);
    RunRound(locking, text, es, a);
    var r1 := es + Round(a);
    var s1 := Exec(locking, text, r1);
    RunRound(locking, text, r1, a);
    var r2 := r1 + Round(a);
    var s2 := Exec(locking, text, r2);
    RunRound(locking, text, r2, a);
    var r3 := r2 + Round(a);
    var s3 := Exec(locking, text, r3);
    RunRound(locking, text, r3, a);
    longer := r3 + Round(a);
    AddingNothingRepeats(s0.text);
    LastTwoRepeat(s2, s3, Exec(locking, text, longer), a);
  }

  lemma LastTwoRepeat(s: State, s1: State, s2: State, a: Agent)
    requires IsAfterRound(s, a, s1) && IsAfterRound(s1, a, s2) && s.Counter() == s1.Counter()
    ensures !NoDuplicates(s2.issued)
  {
    var k := |s.issued|;
    assert s2.issued[k] == s2.issued[k + 1];
    RepeatsAreDuplicates(s2.issued, k, k + 1);
  }

  function Rounds(a: Agent, n: nat): seq<Event> {
    if n == 0 then [] else Rounds(a, n - 1) + Round(a)
  }

  lemma {:induction false} RunRounds(locking: bool, text: string, es: seq<Event>, a: Agent, n: nat)
    requires IsRun(locking, text, es) && Quiet(Exec(locking, text, es), a)
    ensures IsRun(locking, text, es + Rounds(a, n)) && Quiet(Exec(locking, text, es + Rounds(a, n)), a)
    ensures Reservations(es + Rounds(a, n), a.process) == Reservations(es, a.process) + n
  {
    if n == 0 {
      assert es + Rounds(a, n) == es;
    } else {
      var front := es + Rounds(a, n - 1);
      RunRounds(locking, text, es, a, n - 1);
      assert es + Rounds(a, n) == front + Round(a);
      RunRound(locking, text, front, a);
      CountRound(front, a, a.process, 0);
    }
  }

  lemma {:induction false} FourMoreRounds(es: seq<Event>, a: Agent, n: nat)
    ensures es + Rounds(a, n) + Round(a) + Round(a) + Round(a) + Round(a) == es + Rounds(a, n + 4)
  {
    var one, two := Rounds(a, n) + Round(a), Rounds(a, n) + Round(a) + Round(a);
    assert Rounds(a, n + 1) == one && Rounds(a, n + 2) == two;
    assert Rounds(a, n + 4) == two + Round(a) + Round(a);
  }

  lemma {:induction false} RoundsThenRepeat(locking: bool, text: string, es: seq<Event>, a: Agent, m: nat)
      returns (longer: seq<Event>)
    requires IsRun(locking, text, es) && Quiet(Exec(locking, text, es), a) && m >= 28
    ensures longer == es + Rounds(a, m + 4)
    ensures IsRun(locking, text, longer) && !NoDuplicates(Exec(locking, text, longer).issued)
  {
    var mid := es + Rounds(a, m);
    RunRounds(locking, text, es, a, m);
    ReserveFollowsRun(locking, text, mid, a.process);
    ReserveRunsOut(Reservations(mid, a.process));
    longer := NothingReservedRepeats(locking, text, mid, a);
    FourMoreRounds(es, a, m);
  }

  // Whatever has happened, whatever the file holds, and lock or no lock: 32 rounds by threads
  // of one process alone make the program issue some number twice.
  lemma {:induction false} EveryRunCanRepeat(locking: bool, text: string, es: seq<Event>, a: Agent, n: nat)
    requires IsRun(locking, text, es) && Quiet(Exec(locking, text, es), a) && n >= 32
    ensures IsRun(locking, text, es + Rounds(a, n))
    ensures !NoDuplicates(Exec(locking, text, es + Rounds(a, n)).issued)
  {
    var longer := RoundsThenRepeat(locking, text, es, a, n - 4);
  }

  lemma RoundHolds(s: State, a: Agent, s': State, n: nat)
    requires IsAfterRound(s, a, s') && Holds(s.text, n)
    requires 0 <= s.Growth(a.process) && n + s.Growth(a.process) <= LONG_MAX
    ensures Holds(s'.text, n + s.Growth(a.process)) && s.Counter() == n && s'.issued == s.issued + [n]
  {
    HeldIncremented(s.text, n, s.Growth(a.process));
  }

  /** After k rounds, while the counter still grows. */
  ghost predicate GrownState(s: State, a: Agent, init: nat, k: nat) {
    && Quiet(s, a) && |s.issued| == k && (k > 0 ==> s.issued[0] == init)
    && 2 * ReserveAfter(k) >= 32 && Holds(s.text, init + 2 * ReserveAfter(k) - 32)
  }

  ghost predicate Grown(locking: bool, text: string, es: seq<Event>, a: Agent, init: nat, k: nat) {
    && IsRun(locking, text, es) && AlwaysHasRoom(locking, text, es)
    && AtMost(es, k) && Reservations(es, a.process) == k
    && GrownState(Exec(locking, text, es), a, init, k)
  }

  lemma RoundGrows(s: State, a: Agent, s': State, init: nat, k: nat)
    requires GrownState(s, a, init, k) && IsAfterRound(s, a, s') && s.Growth(a.process) == ReserveAfter(k + 1)
    requires k < MAX_RESERVATIONS && init + 0x8000_0000 <= LONG_MAX
    ensures GrownState(s', a, init, k + 1) && s.Counter() + s.Growth(a.process) <= LONG_MAX
  {
    ReserveDoubles(k);
    ReserveDoubles(k + 1);
    RoundHolds(s, a, s', init + 2 * ReserveAfter(k) - 32);
    if k == 0 {
      assert ReserveAfter(k) == 16;
    }
  }

  lemma {:induction false} OneMoreGrown(locking: bool, text: string, es: seq<Event>, a: Agent, init: nat, k: nat)
    requires Grown(locking, text, es, a, init, k) && k < MAX_RESERVATIONS && init + 0x8000_0000 <= LONG_MAX
    ensures Grown(locking, text, es + Round(a), a, init, k + 1)
  {
    GrowthFollowsRun(locking, text, es, a.process);
    RunRound(locking, text, es, a);
    CountRound(es, a, a.process, k + 1);
    AtMostMore(es, k);
    RoundGrows(Exec(locking, text, es), a, Exec(locking, text, es + Round(a)), init, k);
  }

  lemma {:induction false} AtMostMore(es: seq<Event>, k: nat)
    requires AtMost(es, k)
    ensures AtMost(es, k + 1)
  {
    if es == [] {
    } else {
      AtMostMore(es[..|es| - 1], k);
    }
  }

  lemma {:induction false} GrowingRounds(locking: bool, text: string, a: Agent, init: nat, k: nat)
    requires Holds(text, init) && k <= MAX_RESERVATIONS && init + 0x8000_0000 <= LONG_MAX
    ensures Grown(locking, text, Rounds(a, k), a, init, k)
  {
    if k == 0 {
      assert ReserveAfter(0) == 16;
    } else {
      GrowingRounds(locking, text, a, init, k - 1);
      OneMoreGrown(locking, text, Rounds(a, k - 1), a, init, k - 1);
    }
  }

  /** The 27th reservation of a process moves the counter from init + 2^31 - 32 back to
      init - 32, and both are written with equally many digits. */
  predicate WritesCleanBack(init: nat) {
    32 < init <= LONG_MAX - 0x8000_0000
    && |Decimal(init - 32)| == |Decimal(init + 0x8000_0000 - 32)|
  }

  lemma BackText(text: string, init: nat)
    requires WritesCleanBack(init) && Holds(text, init + 0x8000_0000 - 32)
    ensures Incremented(text, -0x8000_0000) == Decimal(init - 32)
  {
    var n: nat := init + 0x8000_0000 - 32;
    HeldReadsBack(text, n);
    assert (n - 0x8000_0000) % TWO_TO_64 == init - 32;
  }

  lemma {:induction false} GoBack(locking: bool, text: string, es: seq<Event>, a: Agent, init: nat, k: nat)
    requires Grown(locking, text, es, a, init, k) && k == MAX_RESERVATIONS && WritesCleanBack(init)
    ensures var r := es + Round(a);
            IsRun(locking, text, r) && AlwaysHasRoom(locking, text, r) && AtMost(r, k + 1)
            && var s := Exec(locking, text, r);
               Quiet(s, a) && |s.issued| > 0 && s.issued[0] == init && Holds(s.text, init - 32)
  {
    var s := Exec(locking, text, es);
    LastDoubling(k);
    GrowthFollowsRun(locking, text, es, a.process);
    ReserveRunsOut(k + 1);
    HeldReadsBack(s.text, init + 0x8000_0000 - 32);
    BackText(s.text, init);
    RunRound(locking, text, es, a);
    CountRound(es, a, a.process, k + 1);
    AtMostMore(es, k);
  }

  lemma {:induction false} StartAgain(locking: bool, text: string, es: seq<Event>, a: Agent, k: nat)
    requires IsRun(locking, text, es) && AlwaysHasRoom(locking, text, es) && AtMost(es, k)
    requires Quiet(Exec(locking, text, es), a)
    ensures var r := es + [Restart(a.process)];
            IsRun(locking, text, r) && AlwaysHasRoom(locking, text, r) && AtMost(r, k)
            && Reservations(r, a.process) == 0
            && var s := Exec(locking, text, r);
               Quiet(s, a) && s.issued == Exec(locking, text, es).issued && s.text == Exec(locking, text, es).text
  {
    RunOneMore(locking, text, es, Restart(a.process));
    CountOneMore(es, Restart(a.process), a.process, k);
    assert Exec(locking, text, es + [Restart(a.process)]).pending == map[];
  }

  lemma {:induction false} EarlyRound(locking: bool, text: string, es: seq<Event>, a: Agent, n: nat, i: nat, k: nat)
    requires IsRun(locking, text, es) && AlwaysHasRoom(locking, text, es) && AtMost(es, k)
    requires Quiet(Exec(locking, text, es), a) && Reservations(es, a.process) < k
    requires Holds(Exec(locking, text, es).text, n) && n + i <= LONG_MAX
    requires Exec(locking, text, es).Growth(a.process) == i
    ensures var r := es + Round(a);
            IsRun(locking, text, r) && AlwaysHasRoom(locking, text, r) && AtMost(r, k)
            && Reservations(r, a.process) == Reservations(es, a.process) + 1
            && var s := Exec(locking, text, r);
               Quiet(s, a) && s.issued == Exec(locking, text, es).issued + [n] && Holds(s.text, n + i)
  {
    RunRound(locking, text, es, a);
    CountRound(es, a, a.process, k);
    RoundHolds(Exec(locking, text, es), a, Exec(locking, text, es + Round(a)), n);
  }

  lemma {:induction false} TwoEarlyRounds(locking: bool, text: string, es: seq<Event>, a: Agent, n: nat, k: nat)
    requires IsRun(locking, text, es) && AlwaysHasRoom(locking, text, es) && AtMost(es, k) && k >= 2
    requires Quiet(Exec(locking, text, es), a) && Reservations(es, a.process) == 0
    requires Holds(Exec(locking, text, es).text, n) && n + 96 <= LONG_MAX
    ensures var r := es + Round(a) + Round(a);
            IsRun(locking, text, r) && AlwaysHasRoom(locking, text, r) && AtMost(r, k)
            && Exec(locking, text, r).issued == Exec(locking, text, es).issued + [n] + [n + 32]
  {
    FirstReserves();
    GrowthFollowsRun(locking, text, es, a.process);
    EarlyRound(locking, text, es, a, n, 32, k);
    GrowthFollowsRun(locking, text, es + Round(a), a.process);
    EarlyRound(locking, text, es + Round(a), a, n + 32, 64, k);
  }

  lemma FirstReserves()
    ensures ReserveAfter(1) == 32 && ReserveAfter(2) == 64
  {
    ReserveDoubles(0);
    ReserveDoubles(1);
  }

  lemma {:induction false} RoundsOfOneProcess(a: Agent, k: nat)
    ensures OneProcess(Rounds(a, k), a.process)
  {
    if k == 0 {
    } else {
      RoundsOfOneProcess(a, k - 1);
    }
  }

  lemma {:induction false} OneProcessMore(es: seq<Event>, p: ProcessId, more: seq<Event>)
    requires OneProcess(es, p) && OneProcess(more, p)
    ensures OneProcess(es + more, p)
  {
  }

  /** 27 rounds of a, a new start, and two more rounds. */
  function TooManyRounds(a: Agent, k: nat): seq<Event> {
    Rounds(a, k) + Round(a) + [Restart(a.process)] + Round(a) + Round(a)
  }

  lemma {:induction false} TooManyRoundsRun(locking: bool, text: string, init: nat, a: Agent, k: nat)
    requires Holds(text, init) && WritesCleanBack(init) && k == MAX_RESERVATIONS
    ensures var es := TooManyRounds(a, k);
            IsRun(locking, text, es) && AlwaysHasRoom(locking, text, es) && AtMost(es, k + 1)
            && var issued := Exec(locking, text, es).issued;
               |issued| > 1 && issued[0] == init == issued[|issued| - 1]
  {
    var r0 := Rounds(a, k);
    GrowingRounds(locking, text, a, init, k);
    GoBack(locking, text, r0, a, init, k);
    var r1 := r0 + Round(a);
    StartAgain(locking, text, r1, a, k + 1);
    var r2 := r1 + [Restart(a.process)];
    TwoEarlyRounds(locking, text, r2, a, init - 32, k + 1);
  }

  lemma TooManyRoundsOfOne(a: Agent, k: nat)
    ensures OneProcess(TooManyRounds(a, k), a.process)
  {
    var r0 := Rounds(a, k);
    var r2 := r0 + Round(a) + [Restart(a.process)];
    RoundsOfOneProcess(a, k);
    OneProcessMore(r0, a.process, Round(a));
    OneProcessMore(r0 + Round(a), a.process, [Restart(a.process)]);
    OneProcessMore(r2, a.process, Round(a));
    OneProcessMore(r2 + Round(a), a.process, Round(a));
  }

  // One reservation too many: after 27 reservations by one process and a new start, numbers
  // are issued a second time, lock or no lock and with room to spare.
  lemma {:induction false} OneTooMany(locking: bool, text: string, init: nat, a: Agent, k: nat) returns (es: seq<Event>)
    requires Holds(text, init) && WritesCleanBack(init) && k == MAX_RESERVATIONS
    ensures IsRun(locking, text, es) && AlwaysHasRoom(locking, text, es) && AtMost(es, k + 1)
    ensures OneProcess(es, a.process)
    ensures !NoDuplicates(Exec(locking, text, es).issued)
  {
    es := TooManyRounds(a, k);
    TooManyRoundsRun(locking, text, init, a, k);
    TooManyRoundsOfOne(a, k);
    var issued := Exec(locking, text, es).issued;
    RepeatsAreDuplicates(issued, 0, |issued| - 1);
  }

  lemma TwentyThousandMillion()
    ensures WritesCleanBack(20_000_000_000)
  {
    var n, m := 20_000_000_000 - 32, 20_000_000_000 + 0x8000_0000 - 32;
    assert Pow10(5) == 100_000;
    assert Pow10(10) == 10_000_000_000 && Pow10(11) == 100_000_000_000;
    ElevenDigits(n);
    ElevenDigits(m);
  }

  lemma ElevenDigits(n: nat)
    requires Pow10(10) <= n < Pow10(11)
    ensures |Decimal(n)| == 11
  {
    DecimalLong(n, 10);
    DecimalLength(n, 11);
  }

  /** Both read the counter before either writes it back. */
  function Collision(a: Agent, b: Agent): seq<Event> {
    [ReadCounter(a), ReadCounter(b), WriteCounter(a), WriteCounter(b), Issue(a), Issue(b)]
  }

  lemma CollisionReads(text: string, a: Agent, b: Agent) returns (s1: State, s2: State)
    requires a.process != b.process
    ensures Enabled(Start(false, text), ReadCounter(a)) && s1 == Apply(Start(false, text), ReadCounter(a))
    ensures Enabled(s1, ReadCounter(b)) && s2 == Apply(s1, ReadCounter(b))
    ensures s1.Counter() == ReadBack(text) && s1.Growth(b.process) == 32 == Start(false, text).Growth(a.process)
    ensures s2.pending == map[a.process := Pending(a, ReadBack(text), 32), b.process := Pending(b, ReadBack(text), 32)]
    ensures s2.due == {} && s2.issued == []
  {
    s1 := Apply(Start(false, text), ReadCounter(a));
    s2 := Apply(s1, ReadCounter(b));
  }

  lemma CollisionWrites(s: State, a: Agent, b: Agent, n: Word) returns (s1: State, s2: State)
    requires a.process != b.process && s.issued == []
    requires s.pending == map[a.process := Pending(a, n, 32), b.process := Pending(b, n, 32)]
    ensures Enabled(s, WriteCounter(a)) && s1 == Apply(s, WriteCounter(a))
    ensures Enabled(s1, WriteCounter(b)) && s2 == Apply(s1, WriteCounter(b))
    ensures a in s2.due && b in s2.due && s2.ChunkOf(a).low == n == s2.ChunkOf(b).low && s2.issued == []
  {
    s1 := Apply(s, WriteCounter(a));
    s2 := Apply(s1, WriteCounter(b));
    assert s1.pending[b.process] == Pending(b, n, 32);
  }

  lemma CollisionCounts(a: Agent, b: Agent)
    requires a.process != b.process
    ensures AtMost(Collision(a, b), 1)
  {
    var es: seq<Event> := [];
    CountOneMore(es, ReadCounter(a), a.process, 1);
    CountOneMore(es, ReadCounter(a), b.process, 1);
    var e1 := es + [ReadCounter(a)];
    CountOneMore(e1, ReadCounter(b), a.process, 1);
    CountOneMore(e1, ReadCounter(b), b.process, 1);
    var e2 := e1 + [ReadCounter(b)];
    CountTwoMore(e2, WriteCounter(a), WriteCounter(b));
    var e4 := e2 + [WriteCounter(a)] + [WriteCounter(b)];
    CountTwoMore(e4, Issue(a), Issue(b));
    assert Collision(a, b) == e4 + [Issue(a)] + [Issue(b)];
  }

  lemma {:induction false} CountTwoMore(es: seq<Event>, e: Event, f: Event)
    requires AtMost(es, 1) && !e.Restart? && !f.Restart? && !e.ReadCounter? && !f.ReadCounter?
    requires Reservations(es, ProcessOf(e)) <= 1 && Reservations(es, ProcessOf(f)) <= 1
    ensures AtMost(es + [e] + [f], 1)
    ensures Reservations(es + [e] + [f], ProcessOf(e)) <= 1 && Reservations(es + [e] + [f], ProcessOf(f)) <= 1
  {
    CountOneMore(es, e, ProcessOf(e), 1);
    CountOneMore(es, e, ProcessOf(f), 1);
    CountOneMore(es + [e], f, ProcessOf(e), 1);
    CountOneMore(es + [e], f, ProcessOf(f), 1);
  }

  lemma CollisionIssues(s: State, a: Agent, b: Agent, n: Word) returns (s1: State, s2: State)
    requires a != b && a in s.due && b in s.due && s.issued == []
    requires s.ChunkOf(a).low == n == s.ChunkOf(b).low
    ensures Enabled(s, Issue(a)) && s1 == Apply(s, Issue(a))
    ensures Enabled(s1, Issue(b)) && s2 == Apply(s1, Issue(b))
    ensures s2.issued == [n, n]
  {
    s1 := Apply(s, Issue(a));
    s2 := Apply(s1, Issue(b));
  }

  lemma {:induction false} RunTwoMore(
      locking: bool, text: string, es: seq<Event>, e: Event, f: Event, s1: State, s2: State)
    requires IsRun(locking, text, es) && AlwaysHasRoom(locking, text, es)
    requires Enabled(Exec(locking, text, es), e) && s1 == Apply(Exec(locking, text, es), e)
    requires Enabled(s1, f) && s2 == Apply(s1, f)
    requires HasRoom(Exec(locking, text, es), e) && HasRoom(s1, f)
    ensures IsRun(locking, text, es + [e] + [f]) && AlwaysHasRoom(locking, text, es + [e] + [f])
    ensures Exec(locking, text, es + [e] + [f]) == s2
  {
    RunOneMore(locking, text, es, e);
    RunOneMore(locking, text, es + [e], f);
  }

  lemma {:induction false} CollisionReadsRun(text: string, a: Agent, b: Agent) returns (es: seq<Event>)
    requires a.process != b.process && 0 <= ReadBack(text) && ReadBack(text) + 32 <= LONG_MAX
    ensures es == [ReadCounter(a), ReadCounter(b)] && IsRun(false, text, es) && AlwaysHasRoom(false, text, es)
    ensures var s := Exec(false, text, es);
            s.pending == map[a.process := Pending(a, ReadBack(text), 32), b.process := Pending(b, ReadBack(text), 32)]
            && s.issued == []
  {
    var s1, s2 := CollisionReads(text, a, b);
    RunTwoMore(false, text, [], ReadCounter(a), ReadCounter(b), s1, s2);
    es := [] + [ReadCounter(a)] + [ReadCounter(b)];
  }

  lemma {:induction false} CollisionEndsRun(text: string, es: seq<Event>, a: Agent, b: Agent, n: Word)
      returns (longer: seq<Event>)
    requires a.process != b.process && IsRun(false, text, es) && AlwaysHasRoom(false, text, es)
    requires Exec(false, text, es).pending == map[a.process := Pending(a, n, 32), b.process := Pending(b, n, 32)]
    requires Exec(false, text, es).issued == []
    ensures longer == es + [WriteCounter(a), WriteCounter(b), Issue(a), Issue(b)]
    ensures IsRun(false, text, longer) && AlwaysHasRoom(false, text, longer)
    ensures Exec(false, text, longer).issued == [n, n]
  {
    var s1, s2 := CollisionWrites(Exec(false, text, es), a, b, n);
    var s3, s4 := CollisionIssues(s2, a, b, n);
    var written := es + [WriteCounter(a)] + [WriteCounter(b)];
    RunTwoMore(false, text, es, WriteCounter(a), WriteCounter(b), s1, s2);
    RunTwoMore(false, text, written, Issue(a), Issue(b), s3, s4);
    longer := written + [Issue(a)] + [Issue(b)];
  }

  // Without the lock, which is how a counter starts out, any two processes can be given the
  // same number, whatever number it is.
  lemma UnlockedProcessesCollide(text: string, init: nat, a: Agent, b: Agent)
    requires Holds(text, init) && init + 32 <= LONG_MAX && a.process != b.process
    ensures var es := Collision(a, b);
            IsRun(false, text, es) && AlwaysHasRoom(false, text, es) && AtMost(es, 1)
            && Exec(false, text, es).issued == [init, init]
  {
    HeldReadsBack(text, init);
    var both := CollisionReadsRun(text, a, b);
    var es := CollisionEndsRun(text, both, a, b, init);
    assert Collision(a, b) == es;
    CollisionCounts(a, b);
  }

  // ---- The exact condition ----

  /** A run by these processes from a file that holds init, in which the counter always has
      room and no process reserves more than k times between two starts. */
  ghost predicate Allowed(locking: bool, procs: set<ProcessId>, k: nat, text: string, init: nat, es: seq<Event>) {
    && IsRun(locking, text, es) && Holds(text, init) && init <= LONG_MAX
    && AlwaysHasRoom(locking, text, es) && AtMost(es, k)
    && forall i :: 0 <= i < |es| ==> ProcessOf(es[i]) in procs
  }

  ghost predicate AlwaysUnique(locking: bool, procs: set<ProcessId>, k: nat) {
    forall text: string, init: nat, es: seq<Event> | Allowed(locking, procs, k, text, init, es) ::
      NoDuplicates(Exec(locking, text, es).issued)
  }

  // Numbers are unique on every run if and only if no process reserves more than 26 times
  // between two starts and the lock is on or there is one process only.
  lemma UniqueExactly(locking: bool, procs: set<ProcessId>, k: nat)
    requires procs != {} && k > 0
    ensures AlwaysUnique(locking, procs, k) <==> k <= MAX_RESERVATIONS && (locking || |procs| == 1)
  {
    if k > MAX_RESERVATIONS {
      TooManyReservations(locking, procs, k);
    } else if !locking && |procs| != 1 {
      TooManyProcesses(procs, k);
    } else {
      forall text: string, init: nat, es: seq<Event> | Allowed(locking, procs, k, text, init, es)
        ensures NoDuplicates(Exec(locking, text, es).issued)
      {
        AllowedIsUnique(locking, procs, k, text, init, es);
      }
    }
  }

  lemma {:induction false} AtMostUpTo(es: seq<Event>, j: nat, k: nat)
    requires AtMost(es, j) && j <= k
    ensures AtMost(es, k)
  {
    if es == [] {
    } else {
      AtMostUpTo(es[..|es| - 1], j, k);
    }
  }

  lemma TheOnlyOne(procs: set<ProcessId>, p: ProcessId, q: ProcessId)
    requires |procs| == 1 && p in procs && q in procs
    ensures p == q
  {
    assert |procs - {p}| == 0;
    assert q !in procs - {p};
  }

  lemma AllowedIsUnique(locking: bool, procs: set<ProcessId>, k: nat, text: string, init: nat, es: seq<Event>)
    requires Allowed(locking, procs, k, text, init, es) && procs != {}
    requires k <= MAX_RESERVATIONS && (locking || |procs| == 1)
    ensures NoDuplicates(Exec(locking, text, es).issued)
  {
    var p0 :| p0 in procs;
    if |procs| == 1 {
      forall i | 0 <= i < |es| ensures ProcessOf(es[i]) == p0 {
        TheOnlyOne(procs, ProcessOf(es[i]), p0);
      }
    }
    AtMostUpTo(es, k, MAX_RESERVATIONS);
    NumbersAreUnique(locking, text, es, init, p0);
  }

  lemma TooManyReservations(locking: bool, procs: set<ProcessId>, k: nat)
    requires procs != {} && k > MAX_RESERVATIONS
    ensures !AlwaysUnique(locking, procs, k)
  {
    var p :| p in procs;
    var init, m := 20_000_000_000, MAX_RESERVATIONS;
    TwentyThousandMillion();
    var es := OneTooMany(locking, Decimal(init), init, Agent(p, 0), m);
    AtMostUpTo(es, m + 1, k);
    assert Allowed(locking, procs, k, Decimal(init), init, es);
  }

  lemma TooManyProcesses(procs: set<ProcessId>, k: nat)
    requires procs != {} && |procs| != 1 && k > 0
    ensures !AlwaysUnique(false, procs, k)
  {
    var p :| p in procs;
    assert |procs - {p}| == |procs| - 1;
    var q :| q in procs - {p};
    var es := Collision(Agent(p, 0), Agent(q, 0));
    UnlockedProcessesCollide("", 0, Agent(p, 0), Agent(q, 0));
    AtMostUpTo(es, 1, k);
    assert Allowed(false, procs, k, "", 0, es);
    RepeatsAreDuplicates([0, 0], 0, 1);
  }
}
