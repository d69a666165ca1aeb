/**
  The search for an account seed, with one thread and with many. The threads are a state
  machine: a run is any sequence of steps, each of one worker or of the main thread.
 */
module SeedSearch {
  import opened Base
  import opened AccountIds
  import opened Codec
  import opened MerkleTrees

  /** What a search is asked for. */
  datatype Query = Query(
    hash: Hash, codeRoot: Word, storageRoot: Word, accountType: AccountType, storageType: AccountStorageType)

  datatype IdError = TooFewTrailingZeros | TooFewOnes | InvalidStorageType

  // ---------- account IDs from seeds ----------

  function ComputeDigest(q: Query, seed: Word): Word {
    (q.hash)(WordElements(seed) + WordElements(q.codeRoot) + WordElements(q.storageRoot) + [0, 0, 0, 0])
  }

  function TrailingZeros(v: u64): nat {
    if v == 0 then 64 else if v % 2 == 1 then 0 else 1 + TrailingZeros(v / 2)
  }

  /** The proof of work asks for divisibility by a power of two. */
  lemma {:induction false} TrailingZerosMeaning(v: u64, n: nat)
    requires n <= 64
    ensures n <= TrailingZeros(v) <==> IsMultiple(v, Pow2(n))
  {
    if n == 0 {
      assert v == Pow2(0) * v;
    } else if v == 0 {
      assert v == Pow2(n) * 0;
    } else if v % 2 == 0 {
      TrailingZerosMeaning(v / 2, n - 1);
      HalfOfMultiple(v / 2, Pow2(n - 1));
    } else {
      MultipleIsEven(v, Pow2(n - 1));
    }
  }

  ghost predicate IsMultiple(v: nat, m: nat) {
    exists k: nat :: v == m * k
  }

  lemma HalfOfMultiple(h: nat, m: nat)
    ensures IsMultiple(h, m) <==> IsMultiple(2 * h, 2 * m)
  {
    if k: nat :| h == m * k {
      assert 2 * h == (2 * m) * k;
    }
    if k: nat :| 2 * h == (2 * m) * k {
      assert h == m * k;
    }
  }

  lemma MultipleIsEven(v: nat, m: nat)
    ensures IsMultiple(v, 2 * m) ==> v % 2 == 0
  {
    if k: nat :| v == (2 * m) * k {
      assert v == 2 * (m * k);
    }
  }

  predicate EnoughWork(digest: Word) {
    var required := if TypeOf(digest.e0) in {RegularAccountImmutableCode, RegularAccountUpdatableCode}
      then REGULAR_MIN_TRAILING_ZEROS
      else FAUCET_MIN_TRAILING_ZEROS;
    required <= TrailingZeros(digest.e3)
  }

  /** Faucets need a last element divisible by 2^31, regular accounts one divisible by 2^23. */
  lemma EnoughWorkMeaning(digest: Word)
    ensures EnoughWork(digest) <==> IsMultiple(digest.e3, Pow2(if FaucetBit(digest.e0) then 31 else 23))
  {
    FaucetBitMeaning(digest.e0);
    TrailingZerosMeaning(digest.e3, if FaucetBit(digest.e0) then 31 else 23);
  }

  /** Each error of the constructor, and success, in terms of the digest. */
  lemma NewAccountIdExact(q: Query, seed: Word)
    ensures var digest, r := ComputeDigest(q, seed), NewAccountId(q, seed);
            && (r == Err(TooFewTrailingZeros) <==> !EnoughWork(digest))
            && (r == Err(TooFewOnes) <==> EnoughWork(digest) && |Bits(digest.e0)| < 5)
            && (r == Err(InvalidStorageType) <==>
                  EnoughWork(digest) && |Bits(digest.e0)| >= 5 && (digest.e0 / BIT_62) % 2 == 1)
            && (r.Ok? ==> r.value == digest.e0)
  {
    OnesMeaning(ComputeDigest(q, seed).e0);
    StorageTypeMeaning(ComputeDigest(q, seed).e0);
  }

  function NewAccountId(q: Query, seed: Word): Result<Felt, IdError> {
    var digest := ComputeDigest(q, seed);
    if !EnoughWork(digest) then Err(TooFewTrailingZeros)
    else if Ones(digest.e0) < MIN_ACCOUNT_ONES then Err(TooFewOnes)
    else if StorageTypeOf(digest.e0).None? then Err(InvalidStorageType)
    else Ok(digest.e0)
  }

  /** The test a search makes on the digest of its current seed. */
  predicate Suits(q: Query, digest: Word) {
    && EnoughWork(digest)
    && ValidId(digest.e0)
    && TypeOf(digest.e0) == q.accountType
    && StorageTypeOf(digest.e0) == Some(q.storageType)
  }

  /** A seed with which an account of the requested kind can be created. */
  predicate Usable(q: Query, seed: Word) {
    match NewAccountId(q, seed)
    case Ok(id) => TypeOf(id) == q.accountType && StorageTypeOf(id) == Some(q.storageType)
    case Err(_) => false
  }

  lemma SuitsMeansUsable(q: Query, seed: Word)
    ensures Suits(q, ComputeDigest(q, seed)) <==> Usable(q, seed)
  {
  }

  /** The same in bits: enough work, five ones, and the requested kind in the four highest bits. */
  lemma UsableInBits(q: Query, seed: Word)
    ensures var d := ComputeDigest(q, seed);
            var faucet := q.accountType in {FungibleFaucet, NonFungibleFaucet};
            var second := q.accountType in {RegularAccountUpdatableCode, NonFungibleFaucet};
            Usable(q, seed) <==>
            && EnoughWork(d) && |Bits(d.e0)| >= 5
            && d.e0 / BIT_62 == (if q.storageType.OnChain? then 0 else 2)
            && (d.e0 / BIT_61) % 2 == (if faucet then 1 else 0)
            && (d.e0 / BIT_60) % 2 == (if second then 1 else 0)
  {
    var id := ComputeDigest(q, seed).e0;
    SuitsMeansUsable(q, seed);
    OnesMeaning(id);
    KindInBits(id, q.accountType);
    StorageInBits(id, q.storageType);
  }

  lemma KindInBits(id: u64, t: AccountType)
    ensures TypeOf(id) == t <==>
            && (id / BIT_61) % 2 == (if t in {FungibleFaucet, NonFungibleFaucet} then 1 else 0)
            && (id / BIT_60) % 2 == (if t in {RegularAccountUpdatableCode, NonFungibleFaucet} then 1 else 0)
  {
    TypeMeaning(id);
  }

  lemma StorageInBits(id: u64, t: AccountStorageType)
    ensures StorageTypeOf(id) == Some(t) <==> id / BIT_62 == if t.OnChain? then 0 else 2
  {
  }

  // ---------- the chain of seeds ----------

  type Init = b: Bytes | |b| == 32 witness seq(32, _ => 0)

  function StartSeed(init: Init): Word {
    Word(LeValue(init[0..8]) % MODULUS, LeValue(init[8..16]) % MODULUS,
         LeValue(init[16..24]) % MODULUS, LeValue(init[24..32]) % MODULUS)
  }

  /** Worker `i` starts from the first byte plus `i`, both taken modulo 256. */
  function WorkerInit(init: Init, i: nat): Init {
    init[0 := (init[0] + i % 256) % 256]
  }

  lemma WordSlices(w: Word)
    ensures var b := WriteWord(w);
            && |b| == 32 && b[0..8] == WriteFelt(w.e0) && b[8..16] == WriteFelt(w.e1)
            && b[16..24] == WriteFelt(w.e2) && b[24..32] == WriteFelt(w.e3)
  {
    var e0, e1, e2, e3 := WriteFelt(w.e0), WriteFelt(w.e1), WriteFelt(w.e2), WriteFelt(w.e3);
    Slices(e0, e1, e2, e3);
  }

  lemma Slices(x: Bytes, y: Bytes, z: Bytes, u: Bytes)
    requires |x| == |y| == |z| == |u| == 8
    ensures var b := x + y + z + u;
            b[0..8] == x && b[8..16] == y && b[16..24] == z && b[24..32] == u
  {
  }

  /** The 32 bytes of a word give that word as the first seed. */
  lemma StartSeedOfWord(w: Word)
    ensures |WriteWord(w)| == 32 && StartSeed(WriteWord(w)) == w
  {
    WordSlices(w);
    SeedOfSlices(WriteWord(w), w);
  }

  lemma SeedOfSlices(b: Init, w: Word)
    requires b[0..8] == WriteFelt(w.e0) && b[8..16] == WriteFelt(w.e1)
    requires b[16..24] == WriteFelt(w.e2) && b[24..32] == WriteFelt(w.e3)
    ensures StartSeed(b) == w
  {
    FeltOfBytes(b[0..8], w.e0);
    FeltOfBytes(b[8..16], w.e1);
    FeltOfBytes(b[16..24], w.e2);
    FeltOfBytes(b[24..32], w.e3);
    var r := StartSeed(b);
    assert r.e0 == w.e0 && r.e1 == w.e1 && r.e2 == w.e2 && r.e3 == w.e3;
  }

  lemma FeltOfBytes(b: Bytes, x: Felt)
    requires b == WriteFelt(x)
    ensures LeValue(b) % MODULUS == x
  {
    FeltValue(x);
    InTheField(LeValue(b), x);
  }

  lemma InTheField(v: nat, x: Felt)
    requires v == x
    ensures v % MODULUS == x
  {
  }

  lemma FeltValue(x: Felt)
    ensures LeValue(WriteFelt(x)) == x
  {
    assert Pow256(8) == 0x1_0000_0000_0000_0000 by {
      assert Pow256(4) == 0x1_0000_0000;
    }
    LeValueOfBytes(x, 8);
  }

  /** Up to 256 workers all start from different bytes; after that they repeat. */
  lemma WorkersStartApart(init: Init, i: nat, j: nat)
    ensures WorkerInit(init, i) == WorkerInit(init, j) <==> i % 256 == j % 256
    ensures WorkerInit(init, i)[1..] == init[1..]
  {
    var a, b := WorkerInit(init, i), WorkerInit(init, j);
    assert a == b ==> a[0] == b[0];
  }

  function Chain(q: Query, start: Word, k: nat): Word {
    if k == 0 then start else ComputeDigest(q, Chain(q, start, k - 1))
  }

  /** Everything on the chain before place `k` is unusable. */
  ghost predicate NoneBefore(q: Query, start: Word, k: nat) {
    forall j: nat | j < k :: !Usable(q, Chain(q, start, j))
  }

  ghost predicate Reached(q: Query, start: Word, seed: Word) {
    exists k: nat :: seed == Chain(q, start, k) && NoneBefore(q, start, k)
  }

  /** The first usable seed of a chain. */
  ghost predicate FirstUsable(q: Query, start: Word, seed: Word) {
    Reached(q, start, seed) && Usable(q, seed)
  }

  lemma FirstIsUnique(q: Query, start: Word, s: Word, t: Word)
    requires FirstUsable(q, start, s) && FirstUsable(q, start, t)
    ensures s == t
  {
    var i: nat :| s == Chain(q, start, i) && NoneBefore(q, start, i);
    var j: nat :| t == Chain(q, start, j) && NoneBefore(q, start, j);
    assert i == j;
  }

  lemma ReachNext(q: Query, start: Word, seed: Word)
    requires Reached(q, start, seed) && !Usable(q, seed)
    ensures Reached(q, start, ComputeDigest(q, seed))
  {
    var k: nat :| seed == Chain(q, start, k) && NoneBefore(q, start, k);
    assert Chain(q, start, k + 1) == ComputeDigest(q, seed);
    assert NoneBefore(q, start, k + 1);
  }

  lemma {:induction false} FirstOfMany(q: Query, start: Word, k: nat) returns (j: nat)
    requires Usable(q, Chain(q, start, k))
    ensures j <= k && Usable(q, Chain(q, start, j)) && NoneBefore(q, start, j)
  {
    if i: nat :| i < k && Usable(q, Chain(q, start, i)) {
      j := FirstOfMany(q, start, i);
    } else {
      j := k;
    }
  }

  /** There is a seed to return exactly if the chain holds a usable one; else the search never ends. */
  lemma SearchEndsExactly(q: Query, start: Word)
    ensures (exists seed :: FirstUsable(q, start, seed)) <==> exists k: nat :: UsableAt(q, start, k)
  {
    if k: nat :| UsableAt(q, start, k) {
      var j := FirstOfMany(q, start, k);
      assert FirstUsable(q, start, Chain(q, start, j));
    }
    if seed :| FirstUsable(q, start, seed) {
      var k: nat :| seed == Chain(q, start, k) && NoneBefore(q, start, k);
      assert UsableAt(q, start, k);
    }
  }

  predicate UsableAt(q: Query, start: Word, k: nat) {
    Usable(q, Chain(q, start, k))
  }

  /** The search with one thread; it ends when the chain holds a usable seed, here at `k`. */
  method GetAccountSeedSingle(q: Query, init: Init, ghost k: nat) returns (seed: Word)
    requires Usable(q, Chain(q, StartSeed(init), k))
    ensures FirstUsable(q, StartSeed(init), seed)
  {
    seed := StartSeed(init);
    var digest := ComputeDigest(q, seed);
    ghost var i: nat := 0;
    assert seed == Chain(q, StartSeed(init), 0);
    while true
      invariant i <= k && seed == Chain(q, StartSeed(init), i) && NoneBefore(q, StartSeed(init), i)
      invariant digest == ComputeDigest(q, seed)
      decreases k - i
    {
      SuitsMeansUsable(q, seed);
      if Suits(q, digest) {
        return seed;
      }
      seed := digest;
      digest := ComputeDigest(q, seed);
      i := i + 1;
    }
  }

  // ---------- the concurrent search ----------

  const STOP_CHECK_INTERVAL := 500_000

  /** A worker's counter is a 32-bit signed integer that wraps around. */
  type i32 = x: int | -0x8000_0000 <= x < 0x8000_0000

  function Increment(c: i32): i32 {
    if c == 0x7FFF_FFFF then -0x8000_0000 else c + 1
  }

  /**
    Where a worker stands: at the top of its loop, about to read the stop flag, about to test
    its digest, about to send it, ended after sending, ended because it was told to.
   */
  datatype Place = Top | Asking | Testing | Sending | Sent | Stopped

  datatype Worker = Worker(place: Place, seed: Word, digest: Word, count: i32)

  /** The main thread: spawning workers, waiting for a message, holding one, and so on. */
  datatype MainPlace = Spawning | Waiting | Received(seed: Word) | Stopping(seed: Word) | Returned(seed: Word)

  datatype State = State(main: MainPlace, workers: seq<Worker>, channel: seq<(Word, Word)>, stop: bool)

  datatype Step = Spawn | Wait | Receive | SetStop | Return | Work(i: nat)

  const START := State(Spawning, [], [], false)

  function NewWorker(q: Query, init: Init, i: nat): Worker {
    var seed := StartSeed(WorkerInit(init, i));
    Worker(Top, seed, ComputeDigest(q, seed), 0)
  }

  predicate Ended(w: Worker) {
    w.place.Sent? || w.place.Stopped?
  }

  /** One step of a worker, given the stop flag. */
  function WorkerStep(q: Query, w: Worker, stop: bool): Worker
    requires !Ended(w)
  {
    match w.place
    case Top =>
      var c := Increment(w.count);
      w.(count := c, place := if c % STOP_CHECK_INTERVAL == 0 then Asking else Testing)
    case Asking => w.(place := if stop then Stopped else Testing)
    case Testing =>
      if Suits(q, w.digest) then w.(place := Sending)
      else w.(seed := w.digest, digest := ComputeDigest(q, w.digest), place := Top)
    case Sending => w.(place := Sent)
  }

  /** What one step makes of a state, or none when the step cannot be taken there. */
  function Take(q: Query, init: Init, threads: nat, s: State, step: Step): Option<State> {
    match step
    case Spawn =>
      if s.main.Spawning? && |s.workers| < threads
      then Some(s.(workers := s.workers + [NewWorker(q, init, |s.workers|)]))
      else None
    case Wait => if s.main.Spawning? && |s.workers| >= threads then Some(s.(main := Waiting)) else None
    case Receive =>
      if s.main.Waiting? && s.channel != []
      then Some(s.(main := Received(s.channel[0].1), channel := s.channel[1..]))
      else None
    case SetStop => if s.main.Received? then Some(s.(stop := true, main := Stopping(s.main.seed))) else None
    case Return => if s.main.Stopping? then Some(s.(main := Returned(s.main.seed))) else None
    case Work(i) =>
      if i < |s.workers| && !Ended(s.workers[i]) then
        var w := s.workers[i];
        var moved := s.(workers := s.workers[i := WorkerStep(q, w, s.stop)]);
        // a message sent after the receiver is gone is lost
        Some(if w.place.Sending? && !s.main.Returned? then moved.(channel := s.channel + [(w.digest, w.seed)]) else moved)
      else None
  }

  /** The state after a whole run, if each of its steps can be taken. */
  function Run(q: Query, init: Init, threads: nat, s: State, steps: seq<Step>): Option<State>
    decreases |steps|
  {
    if steps == [] then Some(s)
    else
      match Run(q, init, threads, s, steps[..|steps| - 1])
      case None => None
      case Some(t) => Take(q, init, threads, t, steps[|steps| - 1])
  }

  // ---------- what every state of every run keeps ----------

  ghost predicate WorkerFine(q: Query, init: Init, i: nat, w: Worker) {
    && w.digest == ComputeDigest(q, w.seed)
    && Reached(q, StartSeed(WorkerInit(init, i)), w.seed)
    && (w.place in {Sending, Sent} ==> Usable(q, w.seed))
  }

  /** A seed that some worker found, the first usable one on that worker's chain. */
  ghost predicate Found(q: Query, init: Init, threads: nat, seed: Word) {
    exists i: nat :: i < threads && FirstUsable(q, StartSeed(WorkerInit(init, i)), seed)
  }

  predicate Answered(m: MainPlace) {
    m.Received? || m.Stopping? || m.Returned?
  }

  function SentBy(ws: seq<Worker>): nat {
    if ws == [] then 0 else SentBy(ws[..|ws| - 1]) + if ws[|ws| - 1].place.Sent? then 1 else 0
  }

  ghost predicate WorkersFine(q: Query, init: Init, ws: seq<Worker>) {
    forall i: nat | i < |ws| :: WorkerFine(q, init, i, ws[i])
  }

  ghost predicate MessagesFine(q: Query, init: Init, threads: nat, channel: seq<(Word, Word)>) {
    forall k: nat | k < |channel| :: Found(q, init, threads, channel[k].1)
  }

  ghost predicate NoneStoppedEarly(s: State) {
    !s.stop ==> forall i: nat | i < |s.workers| :: !s.workers[i].place.Stopped?
  }

  /** Until the search returns, no message is lost and none is made up. */
  ghost predicate MessagesKept(s: State) {
    !s.main.Returned? ==> SentBy(s.workers) == |s.channel| + if Answered(s.main) then 1 else 0
  }

  /** The part of the invariant about places, numbers and the flag: only an answer raises it. */
  ghost predicate Shape(threads: nat, s: State) {
    && (s.stop <==> s.main.Stopping? || s.main.Returned?)
    && |s.workers| <= threads
    && (s.main.Spawning? || |s.workers| == threads)
    && NoneStoppedEarly(s)
    && MessagesKept(s)
  }

  ghost predicate Invariant(q: Query, init: Init, threads: nat, s: State) {
    && WorkersFine(q, init, s.workers)
    && MessagesFine(q, init, threads, s.channel)
    && (Answered(s.main) ==> Found(q, init, threads, s.main.seed))
    && Shape(threads, s)
  }

  lemma NewWorkerFine(q: Query, init: Init, i: nat)
    ensures WorkerFine(q, init, i, NewWorker(q, init, i))
  {
    var seed := StartSeed(WorkerInit(init, i));
    assert seed == Chain(q, seed, 0) && NoneBefore(q, seed, 0);
  }

  lemma WorkerStepFine(q: Query, init: Init, i: nat, w: Worker, stop: bool)
    requires WorkerFine(q, init, i, w) && !Ended(w)
    ensures WorkerFine(q, init, i, WorkerStep(q, w, stop))
  {
    SuitsMeansUsable(q, w.seed);
    if w.place.Testing? && !Suits(q, w.digest) {
      ReachNext(q, StartSeed(WorkerInit(init, i)), w.seed);
    }
  }

  lemma {:induction false} SentByUpdate(ws: seq<Worker>, i: nat, w: Worker)
    requires i < |ws|
    ensures SentBy(ws[i := w]) ==
            SentBy(ws) - (if ws[i].place.Sent? then 1 else 0) + if w.place.Sent? then 1 else 0
  {
    var n := |ws| - 1;
    if i < n {
      SentByUpdate(ws[..n], i, w);
      assert ws[i := w][..n] == ws[..n][i := w];
    } else {
      assert ws[i := w][..n] == ws[..n];
    }
  }

  lemma {:induction false} SentByNone(ws: seq<Worker>)
    requires SentBy(ws) == 0
    ensures forall i: nat | i < |ws| :: !ws[i].place.Sent?
  {
    if ws != [] {
      SentByNone(ws[..|ws| - 1]);
      assert forall i: nat | i < |ws| - 1 :: ws[i] == ws[..|ws| - 1][i];
    }
  }

  lemma WorkersStayFine(q: Query, init: Init, ws: seq<Worker>, i: nat, stop: bool)
    requires WorkersFine(q, init, ws) && i < |ws| && !Ended(ws[i])
    ensures WorkersFine(q, init, ws[i := WorkerStep(q, ws[i], stop)])
  {
    WorkerStepFine(q, init, i, ws[i], stop);
  }

  lemma MessageIsFound(q: Query, init: Init, threads: nat, channel: seq<(Word, Word)>, i: nat, w: Worker)
    requires MessagesFine(q, init, threads, channel) && WorkerFine(q, init, i, w) && i < threads && w.place.Sending?
    ensures MessagesFine(q, init, threads, channel + [(w.digest, w.seed)])
  {
    assert FirstUsable(q, StartSeed(WorkerInit(init, i)), w.seed);
    assert Found(q, init, threads, w.seed);
  }

  lemma WorkKeepsShape(q: Query, init: Init, threads: nat, s: State, i: nat)
    requires Shape(threads, s) && i < |s.workers| && !Ended(s.workers[i])
    ensures Shape(threads, Take(q, init, threads, s, Work(i)).value)
  {
    SentByUpdate(s.workers, i, WorkerStep(q, s.workers[i], s.stop));
  }

  lemma MainKeepsShape(q: Query, init: Init, threads: nat, s: State, step: Step)
    requires Shape(threads, s) && !step.Work? && Take(q, init, threads, s, step).Some?
    ensures Shape(threads, Take(q, init, threads, s, step).value)
  {
    if step.Spawn? {
      assert (s.workers + [NewWorker(q, init, |s.workers|)])[..|s.workers|] == s.workers;
    }
  }

  lemma WorkKeeps(q: Query, init: Init, threads: nat, s: State, i: nat)
    requires Invariant(q, init, threads, s) && i < |s.workers| && !Ended(s.workers[i])
    ensures Invariant(q, init, threads, Take(q, init, threads, s, Work(i)).value)
  {
    WorkersStayFine(q, init, s.workers, i, s.stop);
    if s.workers[i].place.Sending? {
      MessageIsFound(q, init, threads, s.channel, i, s.workers[i]);
    }
    WorkKeepsShape(q, init, threads, s, i);
  }

  lemma MainKeeps(q: Query, init: Init, threads: nat, s: State, step: Step)
    requires Invariant(q, init, threads, s) && !step.Work? && Take(q, init, threads, s, step).Some?
    ensures Invariant(q, init, threads, Take(q, init, threads, s, step).value)
  {
    if step.Spawn? {
      NewWorkerFine(q, init, |s.workers|);
    }
    MainKeepsShape(q, init, threads, s, step);
  }

  lemma {:induction false} RunKeeps(q: Query, init: Init, threads: nat, s: State, steps: seq<Step>)
    requires Invariant(q, init, threads, s) && Run(q, init, threads, s, steps).Some?
    ensures Invariant(q, init, threads, Run(q, init, threads, s, steps).value)
    decreases |steps|
  {
    if steps != [] {
      var front := steps[..|steps| - 1];
      RunKeeps(q, init, threads, s, front);
      var t, last := Run(q, init, threads, s, front).value, steps[|steps| - 1];
      if last.Work? {
        WorkKeeps(q, init, threads, t, last.i);
      } else {
        MainKeeps(q, init, threads, t, last);
      }
    }
  }

  // ---------- the first message wins ----------

  /** The message a step sends, if it is the sending step of a worker. */
  function MessageOf(s: State, step: Step): seq<(Word, Word)> {
    if step.Work? && step.i < |s.workers| && s.workers[step.i].place.Sending?
    then [(s.workers[step.i].digest, s.workers[step.i].seed)] else []
  }

  /** All messages of a run in the order in which they were sent. */
  function Messages(q: Query, init: Init, threads: nat, steps: seq<Step>): seq<(Word, Word)>
    requires Run(q, init, threads, START, steps).Some?
    decreases |steps|
  {
    if steps == [] then []
    else
      var front := steps[..|steps| - 1];
      Messages(q, init, threads, front) + MessageOf(Run(q, init, threads, START, front).value, steps[|steps| - 1])
  }

  ghost predicate FirstTaken(s: State, sent: seq<(Word, Word)>) {
    if Answered(s.main) then sent != [] && s.main.seed == sent[0].1 && (!s.main.Returned? ==> s.channel == sent[1..])
    else s.channel == sent
  }

  lemma StepTakesFirst(q: Query, init: Init, threads: nat, s: State, step: Step, sent: seq<(Word, Word)>)
    requires FirstTaken(s, sent) && Take(q, init, threads, s, step).Some?
    ensures FirstTaken(Take(q, init, threads, s, step).value, sent + MessageOf(s, step))
  {
    var m := MessageOf(s, step);
    assert sent != [] ==> (sent + m)[0] == sent[0] && (sent + m)[1..] == sent[1..] + m;
    assert m == [] ==> sent + m == sent;
  }

  /** The answer of every run is the seed in the first message any worker sent. */
  lemma {:induction false} FirstMessageWins(q: Query, init: Init, threads: nat, steps: seq<Step>)
    requires Run(q, init, threads, START, steps).Some?
    ensures FirstTaken(Run(q, init, threads, START, steps).value, Messages(q, init, threads, steps))
    decreases |steps|
  {
    if steps != [] {
      var front := steps[..|steps| - 1];
      FirstMessageWins(q, init, threads, front);
      StepTakesFirst(q, init, threads, Run(q, init, threads, START, front).value, steps[|steps| - 1],
                     Messages(q, init, threads, front));
    }
  }

  // ---------- the whole search ----------

  lemma StartFine(q: Query, init: Init, threads: nat)
    ensures Invariant(q, init, threads, START)
  {
  }

  /**
    Under every interleaving: the seed the search returns makes an account ID of the requested
    kind and is the first usable seed of one worker's chain, and a worker that was told to stop
    is told so only after the main thread has its answer.
   */
  lemma SearchIsSafe(q: Query, init: Init, threads: nat, steps: seq<Step>)
    requires Run(q, init, threads, START, steps).Some?
    ensures var s := Run(q, init, threads, START, steps).value;
            && (s.main.Returned? ==> Usable(q, s.main.seed) && Found(q, init, threads, s.main.seed))
            && (forall i: nat | i < |s.workers| :: s.workers[i].place.Stopped? ==> Answered(s.main))
  {
    StartFine(q, init, threads);
    RunKeeps(q, init, threads, START, steps);
  }

  ghost predicate CanMove(q: Query, init: Init, threads: nat, s: State) {
    exists step :: Take(q, init, threads, s, step).Some?
  }

  lemma WaitingCanMove(q: Query, init: Init, threads: nat, s: State)
    requires Shape(threads, s) && s.main.Waiting? && threads >= 1
    ensures CanMove(q, init, threads, s)
  {
    if s.channel == [] {
      SentByNone(s.workers);
      assert Take(q, init, threads, s, Work(0)).Some?;
    } else {
      assert Take(q, init, threads, s, Receive).Some?;
    }
  }

  lemma ShapeCanMove(q: Query, init: Init, threads: nat, s: State)
    requires Shape(threads, s) && threads >= 1
    ensures s.main.Returned? || CanMove(q, init, threads, s)
  {
    if s.main.Waiting? {
      WaitingCanMove(q, init, threads, s);
    } else if !s.main.Returned? {
      var step :=
        if s.main.Spawning? then (if |s.workers| < threads then Spawn else Wait)
        else if s.main.Received? then SetStop
        else Return;
      assert Take(q, init, threads, s, step).Some?;
    }
  }

  /**
    The search is never stuck: until it returns, the main thread or some worker can move, and
    the messages sent are exactly those waiting and the one received.
   */
  lemma SearchIsLive(q: Query, init: Init, threads: nat, steps: seq<Step>)
    requires Run(q, init, threads, START, steps).Some? && threads >= 1
    ensures var s := Run(q, init, threads, START, steps).value;
            s.main.Returned? || (CanMove(q, init, threads, s) && MessagesKept(s))
  {
    StartFine(q, init, threads);
    RunKeeps(q, init, threads, START, steps);
    ShapeCanMove(q, init, threads, Run(q, init, threads, START, steps).value);
  }

  // ---------- progress ----------

  lemma {:induction false} ChainFromNext(q: Query, seed: Word, d: nat)
    ensures Chain(q, ComputeDigest(q, seed), d) == Chain(q, seed, d + 1)
  {
    if d > 0 {
      ChainFromNext(q, seed, d - 1);
    } else {
      assert Chain(q, seed, 1) == ComputeDigest(q, Chain(q, seed, 0));
    }
  }

  function StepsInRound(place: Place): nat {
    match place
    case Top => 4
    case Asking => 3
    case Testing => 2
    case Sending => 1
    case _ => 0
  }

  /** At most `n` steps bring the worker to an end: a usable seed lies that near on its chain. */
  ghost predicate EndsWithin(q: Query, w: Worker, n: int) {
    Ended(w) || exists d: nat :: Usable(q, Chain(q, w.seed, d)) && 4 * d + StepsInRound(w.place) <= n
  }

  lemma NextIsNearer(q: Query, seed: Word, d: nat)
    requires Usable(q, Chain(q, seed, d)) && !Usable(q, seed)
    ensures d > 0 && Usable(q, Chain(q, ComputeDigest(q, seed), d - 1))
  {
    assert Chain(q, seed, 0) == seed;
    ChainFromNext(q, seed, d - 1);
  }

  lemma StepNears(q: Query, w: Worker, stop: bool, n: int)
    requires !Ended(w) && w.digest == ComputeDigest(q, w.seed) && EndsWithin(q, w, n)
    ensures EndsWithin(q, WorkerStep(q, w, stop), n - 1)
  {
    var d: nat :| Usable(q, Chain(q, w.seed, d)) && 4 * d + StepsInRound(w.place) <= n;
    var w' := WorkerStep(q, w, stop);
    if w.place.Testing? && !Suits(q, w.digest) {
      SuitsMeansUsable(q, w.seed);
      NextIsNearer(q, w.seed, d);
      assert Usable(q, Chain(q, w'.seed, d - 1));
    } else {
      assert w'.seed == w.seed && StepsInRound(w'.place) < StepsInRound(w.place);
      assert Usable(q, Chain(q, w'.seed, d));
    }
  }

  /** The budget of worker `i`, before and after it is spawned. */
  ghost predicate OnTime(q: Query, s: State, i: nat, n: int, turns: nat) {
    if i < |s.workers| then EndsWithin(q, s.workers[i], n - turns) else turns == 0
  }

  lemma TakeOnTime(q: Query, init: Init, threads: nat, s: State, step: Step, i: nat, k: nat, turns: nat)
    requires Invariant(q, init, threads, s) && Take(q, init, threads, s, step).Some?
    requires Usable(q, Chain(q, StartSeed(WorkerInit(init, i)), k))
    requires OnTime(q, s, i, 4 * k + 4, turns)
    ensures OnTime(q, Take(q, init, threads, s, step).value, i, 4 * k + 4, turns + if step == Work(i) then 1 else 0)
  {
    if step == Work(i) {
      assert WorkerFine(q, init, i, s.workers[i]);
      StepNears(q, s.workers[i], s.stop, 4 * k + 4 - turns);
    } else if step.Spawn? && i == |s.workers| {
      NewWorkerOnTime(q, init, i, k);
    }
  }

  lemma NewWorkerOnTime(q: Query, init: Init, i: nat, k: nat)
    requires Usable(q, Chain(q, StartSeed(WorkerInit(init, i)), k))
    ensures EndsWithin(q, NewWorker(q, init, i), 4 * k + 4)
  {
    var w := NewWorker(q, init, i);
    assert Usable(q, Chain(q, w.seed, k)) && 4 * k + StepsInRound(w.place) <= 4 * k + 4;
  }

  lemma {:induction false} RunOnTime(q: Query, init: Init, threads: nat, steps: seq<Step>, i: nat, k: nat)
    requires Run(q, init, threads, START, steps).Some?
    requires Usable(q, Chain(q, StartSeed(WorkerInit(init, i)), k))
    ensures OnTime(q, Run(q, init, threads, START, steps).value, i, 4 * k + 4, Turns(steps, i))
    decreases |steps|
  {
    if steps != [] {
      var front := steps[..|steps| - 1];
      RunOnTime(q, init, threads, front, i, k);
      StartFine(q, init, threads);
      RunKeeps(q, init, threads, START, front);
      TakeOnTime(q, init, threads, Run(q, init, threads, START, front).value, steps[|steps| - 1], i, k, Turns(front, i));
    }
  }

  lemma {:induction false} SentCounts(ws: seq<Worker>, i: nat)
    requires i < |ws| && ws[i].place.Sent?
    ensures SentBy(ws) > 0
  {
    if i < |ws| - 1 {
      SentCounts(ws[..|ws| - 1], i);
    }
  }

  lemma OnTimeProgresses(q: Query, init: Init, threads: nat, s: State, i: nat, n: int, turns: nat)
    requires Shape(threads, s) && OnTime(q, s, i, n, turns) && i < threads && n > 0
    ensures || s.channel != [] || Answered(s.main)
            || (turns < n && (s.main.Spawning? || Take(q, init, threads, s, Work(i)).Some?))
  {
    if i < |s.workers| && s.workers[i].place.Sent? {
      SentCounts(s.workers, i);
    }
  }

  /**
    Progress, under every interleaving: if the chain of worker `i` holds a usable seed at place
    `k`, then as long as there is no message and no answer that worker, once spawned, can move
    and has had fewer than `4 k + 4` turns. So a schedule that keeps giving it turns ends the wait.
   */
  lemma SearchProgresses(q: Query, init: Init, threads: nat, steps: seq<Step>, i: nat, k: nat)
    requires Run(q, init, threads, START, steps).Some? && i < threads
    requires Usable(q, Chain(q, StartSeed(WorkerInit(init, i)), k))
    ensures var s := Run(q, init, threads, START, steps).value;
            || s.channel != [] || Answered(s.main)
            || (Turns(steps, i) < 4 * k + 4 && (s.main.Spawning? || Take(q, init, threads, s, Work(i)).Some?))
  {
    StartFine(q, init, threads);
    RunKeeps(q, init, threads, START, steps);
    RunOnTime(q, init, threads, steps, i, k);
    OnTimeProgresses(q, init, threads, Run(q, init, threads, START, steps).value, i, 4 * k + 4, Turns(steps, i));
  }

  lemma FoundByOne(q: Query, init: Init, seed: Word)
    requires Found(q, init, 1, seed)
    ensures FirstUsable(q, StartSeed(init), seed)
  {
    var i: nat :| i < 1 && FirstUsable(q, StartSeed(WorkerInit(init, i)), seed);
    assert WorkerInit(init, 0) == init;
  }

  /** With one thread the concurrent search finds the seed the other one finds. */
  lemma OneThreadAgrees(q: Query, init: Init, steps: seq<Step>, single: Word)
    requires Run(q, init, 1, START, steps).Some? && Run(q, init, 1, START, steps).value.main.Returned?
    requires FirstUsable(q, StartSeed(init), single)
    ensures Run(q, init, 1, START, steps).value.main.seed == single
  {
    SearchIsSafe(q, init, 1, steps);
    var found := Run(q, init, 1, START, steps).value.main.seed;
    FoundByOne(q, init, found);
    FirstIsUnique(q, StartSeed(init), found, single);
  }

  // ---------- after the stop flag is raised ----------

  /** How many more increments bring the counter to a value at which the flag is read. */
  function UntilCheck(c: i32): (n: nat)
    ensures 1 <= n <= 967_296
  {
    if c >= 2_147_000_000 then 0x7FFF_FFFF - c + 1 + 483_648 else STOP_CHECK_INTERVAL - c % STOP_CHECK_INTERVAL
  }

  lemma IncrementNears(c: i32)
    ensures var d := Increment(c);
            if d % STOP_CHECK_INTERVAL == 0 then UntilCheck(c) == 1 else UntilCheck(d) == UntilCheck(c) - 1
  {
  }

  function Rank(w: Worker): (n: nat)
    ensures n <= 2 * 967_296 + 2
  {
    match w.place
    case Top => 2 * UntilCheck(w.count) + 1
    case Testing => 2 * UntilCheck(w.count) + 2
    case Asking => 1
    case Sending => 1
    case Sent => 0
    case Stopped => 0
  }

  lemma RankFalls(q: Query, w: Worker)
    requires !Ended(w)
    ensures Rank(WorkerStep(q, w, true)) < Rank(w)
  {
    IncrementNears(w.count);
  }

  /** How many steps of a run are worker `i`'s. */
  function Turns(steps: seq<Step>, i: nat): nat {
    if steps == [] then 0
    else Turns(steps[..|steps| - 1], i) + if steps[|steps| - 1] == Work(i) then 1 else 0
  }

  /**
    Once the flag is up it stays up, and from then on a worker takes fewer than two million
    more steps in any run whatever, although its counter may wrap around meanwhile.
   */
  lemma {:induction false} WorkersEnd(q: Query, init: Init, threads: nat, s: State, steps: seq<Step>, i: nat)
    requires s.stop && i < |s.workers| && !s.main.Spawning?
    requires Run(q, init, threads, s, steps).Some?
    ensures var t := Run(q, init, threads, s, steps).value;
            && t.stop && !t.main.Spawning? && |t.workers| == |s.workers|
            && Turns(steps, i) + Rank(t.workers[i]) <= Rank(s.workers[i])
    decreases |steps|
  {
    if steps != [] {
      var front := steps[..|steps| - 1];
      WorkersEnd(q, init, threads, s, front, i);
      var t := Run(q, init, threads, s, front).value;
      if steps[|steps| - 1] == Work(i) {
        RankFalls(q, t.workers[i]);
      }
    }
  }
}
