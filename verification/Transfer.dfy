/** A file's bytes on their way into blocks and back: src/machine/Client.cpp and src/block/DataBlock.cpp. */
module Chunks {
  import opened Bytes

  /** Block::blockSize. */
  const BLOCK_SIZE: nat := 65536

  /** The block that byte `p` of a file is in, and its place there. */
  function BlockOf(p: nat): (i: nat)
    ensures i * BLOCK_SIZE <= p < i * BLOCK_SIZE + BLOCK_SIZE
  {
    if p < BLOCK_SIZE then 0 else 1 + BlockOf(p - BLOCK_SIZE)
  }

  function OffsetIn(p: nat): (j: nat)
    ensures j < BLOCK_SIZE
  {
    p - BlockOf(p) * BLOCK_SIZE
  }

  /** What the fread loop of putFile reads, one message for each. */
  function Chunked(content: seq<byte>): seq<seq<byte>>
  {
    if content == [] then []
    else if |content| <= BLOCK_SIZE then [content]
    else [content[..BLOCK_SIZE]] + Chunked(content[BLOCK_SIZE..])
  }

  /** The rest of the file starts with the next message. */
  lemma ChunkedFrom(content: seq<byte>, off: nat, cread: nat)
    requires off < |content| && cread == if |content| - off < BLOCK_SIZE then |content| - off else BLOCK_SIZE
    ensures Chunked(content[off..]) == [content[off..off + cread]] + Chunked(content[off + cread..])
  {
    var rest := content[off..];
    assert rest[..cread] == content[off..off + cread] && rest[cread..] == content[off + cread..];
    if |rest| <= BLOCK_SIZE {
      assert rest == rest[..cread] && rest[cread..] == [];
    }
  }

  method PutFile(content: seq<byte>) returns (msgs: seq<seq<byte>>)
    ensures msgs == Chunked(content)
  {
    msgs := [];
    var off := 0;
    while true
      invariant 0 <= off <= |content| && msgs + Chunked(content[off..]) == Chunked(content)
      decreases |content| - off
    {
      var cread := if |content| - off < BLOCK_SIZE then |content| - off else BLOCK_SIZE;
      if cread == 0 {
        break;
      }
      ChunkedFrom(content, off, cread);
      msgs := msgs + [content[off..off + cread]];
      off := off + cread;
    }
  }

  /** How many bytes of a file of `size` bytes block `i` holds. */
  function SizeAt(size: nat, i: nat): nat
  {
    if size <= i * BLOCK_SIZE then 0 else if size - i * BLOCK_SIZE > BLOCK_SIZE then BLOCK_SIZE
      else size - i * BLOCK_SIZE
  }

  /** Each message is its part of the file; there are just enough of them, and none is empty. */
  lemma {:induction false} ChunkedAt(content: seq<byte>, i: nat)
    requires i < |Chunked(content)|
    ensures i * BLOCK_SIZE < |content| && SizeAt(|content|, i) > 0
    ensures Chunked(content)[i] == content[i * BLOCK_SIZE..i * BLOCK_SIZE + SizeAt(|content|, i)]
    decreases i
  {
    if i > 0 {
      ChunkedAt(content[BLOCK_SIZE..], i - 1);
    }
  }

  lemma {:induction false} ChunkedCount(content: seq<byte>)
    ensures |content| <= |Chunked(content)| * BLOCK_SIZE
    ensures content != [] ==> Chunked(content) != [] && (|Chunked(content)| - 1) * BLOCK_SIZE < |content|
  {
    if |content| > BLOCK_SIZE {
      ChunkedCount(content[BLOCK_SIZE..]);
    }
  }

  /** setupData: a zeroed block, with the message copied to its front. */
  function Stored(msg: seq<byte>): (block: seq<byte>)
    requires |msg| <= BLOCK_SIZE
    ensures |block| == BLOCK_SIZE
  {
    msg + Zeros(BLOCK_SIZE - |msg|)
  }

  /** The sizes that getFile gives its tasks, of a file that is said to have `size` bytes in `n` blocks. */
  function Schedule(size: nat, n: nat): (wsizes: seq<nat>)
    ensures |wsizes| == n
  {
    if n == 0 then []
    else
      var wsize := if size > BLOCK_SIZE then BLOCK_SIZE else size;
      [wsize] + Schedule(size - wsize, n - 1)
  }

  method Scheduled(size: nat, n: nat) returns (wsizes: seq<nat>)
    ensures wsizes == Schedule(size, n)
  {
    wsizes := [];
    var fileSize, i := size, 0;
    while i < n
      invariant 0 <= i <= n && fileSize >= 0 && wsizes + Schedule(fileSize, n - i) == Schedule(size, n)
    {
      var wsize := if fileSize > BLOCK_SIZE then BLOCK_SIZE else fileSize;
      fileSize := fileSize - wsize;
      wsizes := wsizes + [wsize];
      i := i + 1;
    }
  }

  /** The schedule gives every block its part of the file. */
  lemma {:induction false} ScheduleAt(size: nat, n: nat, i: nat)
    requires i < n
    ensures Schedule(size, n)[i] == SizeAt(size, i)
    decreases n
  {
    var wsize := if size > BLOCK_SIZE then BLOCK_SIZE else size;
    if n > 1 {
      ScheduleAt(size - wsize, n - 1, if i > 0 then i - 1 else 0);
    }
  }

  /**
   * The write ranges tile the file: byte `p` is written by block BlockOf(p), and by no other, exactly when p < size.
   */
  lemma TilesIff(size: nat, n: nat, p: nat, i: nat)
    requires i < n && size <= n * BLOCK_SIZE
    ensures i * BLOCK_SIZE <= p < i * BLOCK_SIZE + Schedule(size, n)[i] <==> p < size && i == BlockOf(p)
    ensures p < size ==> BlockOf(p) < n
  {
    ScheduleAt(size, n, i);
  }
}

/** The tasks of getFile writing into one file, in every interleaving and with every partial write. */
module Downloads {
  import opened Bytes
  import opened Chunks

  /** write() at a position: zeros fill the gap to it. */
  function WriteAt(file: seq<byte>, off: nat, b: seq<byte>): (r: seq<byte>)
    ensures |r| == if off + |b| > |file| then off + |b| else |file|
    ensures forall p :: 0 <= p < |r| ==>
              r[p] == if off <= p < off + |b| then b[p - off] else if p < |file| then file[p] else 0
  {
    var grown := if off + |b| > |file| then file + Zeros(off + |b| - |file|) else file;
    Patch(grown, off, b)
  }

  datatype Phase = Waiting | Running | Ended | Failed

  /** One block's task: how far it has written, and the result that getFile's wait loop reads. */
  datatype Task = Task(phase: Phase, written: nat, result: int)

  /**
   * `handed` counts the tasks that a thread of the pool has been given, and `seen` the results that the wait loop has
   * found to be 1 in its present round.
   */
  datatype Get = Get(file: seq<byte>, tasks: seq<Task>, handed: nat, seen: nat, returned: bool)

  const THREADS: nat := 4

  /** The tasks that keep a thread of the pool. */
  function Unfinished(g: Get): set<nat>
  {
    set i: nat | i < g.handed && i < |g.tasks| && (g.tasks[i].phase.Waiting? || g.tasks[i].phase.Running?)
  }

  /**
   * The blocks as the servers hold them, the sizes as scheduled; and whether a task reports its result last, or first
   * as written.
   */
  datatype Setup = Setup(blocks: seq<seq<byte>>, wsizes: seq<nat>, resultLast: bool)

  ghost predicate SetupOK(s: Setup)
  {
    |s.wsizes| == |s.blocks| && forall i :: 0 <= i < |s.blocks| ==>
      |s.blocks[i]| == BLOCK_SIZE && s.wsizes[i] <= BLOCK_SIZE
  }

  datatype Event =
    | Hand                     // the next task is given to a free thread
    | Begin(i: nat)            // that thread starts it
    | Write(i: nat, k: nat)    // write() takes k of the bytes that are left
    | End(i: nat)              // nothing is left
    | Fail(i: nat)             // no connection, no answer, or write() returns -1
    | Stop(i: nat)             // write() returns 0
    | Look                     // the wait loop reads one more result
    | Return                   // it has found 1 everywhere

  function Begun(s: Setup): int { if s.resultLast then 0 else 1 }

  ghost predicate Next(s: Setup, g: Get, e: Event, g': Get)
    requires SetupOK(s)
  {
    match e
    case Hand =>
      g.handed < |g.tasks| && |Unfinished(g)| < THREADS && g' == g.(handed := g.handed + 1)
    case Begin(i) =>
      && i < g.handed && i < |g.tasks| && g.tasks[i].phase.Waiting?
      && g' == g.(tasks := g.tasks[i := Task(Running, 0, Begun(s))])
    case Write(i, k) =>
      && i < |g.tasks| == |s.blocks| && g.tasks[i].phase.Running? && 0 < k <= s.wsizes[i] - g.tasks[i].written
      && var w := g.tasks[i].written;
         g' == g.(file := WriteAt(g.file, i * BLOCK_SIZE + w, s.blocks[i][w..w + k]),
                  tasks := g.tasks[i := g.tasks[i].(written := w + k)])
    case End(i) =>
      && i < |g.tasks| == |s.blocks| && g.tasks[i].phase.Running? && g.tasks[i].written >= s.wsizes[i]
      && g' == g.(tasks := g.tasks[i := g.tasks[i].(phase := Ended, result := 1)])
    case Fail(i) =>
      && i < |g.tasks| && g.tasks[i].phase.Running?
      && g' == g.(tasks := g.tasks[i := g.tasks[i].(phase := Failed, result := -1)])
    case Stop(i) =>
      && i < |g.tasks| && g.tasks[i].phase.Running?
      && g' == g.(tasks := g.tasks[i := g.tasks[i].(phase := Failed)])
    case Look =>
      && g.handed == |g.tasks| && g.seen < |g.tasks| && !g.returned && g.tasks[g.seen].result != -1
      && g' == g.(seen := if g.tasks[g.seen].result == 1 then g.seen + 1 else 0)
    case Return =>
      && g.handed == g.seen == |g.tasks| > 0 && g' == g.(returned := true)
  }

  function Fresh(n: nat): Get { Get([], seq(n, _ => Task(Waiting, 0, 0)), 0, 0, false) }

  ghost predicate Reached(s: Setup, g: Get)
    requires SetupOK(s)
  {
    exists run: seq<Get>, events: seq<Event> :: IsRun(s, run, events) && run[|events|] == g
  }

  ghost predicate IsRun(s: Setup, run: seq<Get>, events: seq<Event>)
    requires SetupOK(s)
  {
    && |run| == |events| + 1 && run[0] == Fresh(|s.blocks|)
    && forall i :: 0 <= i < |events| ==> Next(s, run[i], events[i], run[i + 1])
  }

  // ---- The file at any moment ----

  /** Byte `p` has been written. */
  ghost predicate Covered(g: Get, p: nat)
  {
    var i := BlockOf(p);
    i < |g.tasks| && OffsetIn(p) < g.tasks[i].written
  }

  /** The byte that belongs at `p`. */
  function Due(s: Setup, p: nat): byte
    requires SetupOK(s) && BlockOf(p) < |s.blocks|
  {
    s.blocks[BlockOf(p)][OffsetIn(p)]
  }

  ghost predicate InStep(t: Task, wsize: nat)
  {
    t.written <= wsize && (t.phase.Waiting? ==> t.written == 0) && (t.phase.Ended? ==> t.written == wsize)
  }

  ghost predicate Good(s: Setup, g: Get)
    requires SetupOK(s)
  {
    && |g.tasks| == |s.blocks|
    && (forall i :: 0 <= i < |g.tasks| ==> InStep(g.tasks[i], s.wsizes[i]))
    && (forall p :: 0 <= p < |g.file| ==> g.file[p] == if Covered(g, p) then Due(s, p) else 0)
    && EndsCovered(g)
  }

  /** The file ends with the last byte written. */
  ghost predicate EndsCovered(g: Get)
  {
    (forall p: nat :: Covered(g, p) ==> p < |g.file|) && (g.file != [] ==> Covered(g, |g.file| - 1))
  }

  /** What one write covers. */
  lemma WriteCovers(s: Setup, g: Get, i: nat, k: nat, g': Get, p: nat)
    requires SetupOK(s) && Next(s, g, Write(i, k), g')
    ensures var off := i * BLOCK_SIZE + g.tasks[i].written;
      && (Covered(g', p) <==> Covered(g, p) || off <= p < off + k)
      && (off <= p < off + k ==> BlockOf(p) == i && p - off + g.tasks[i].written == OffsetIn(p))
  {
  }

  lemma WriteByte(s: Setup, g: Get, i: nat, k: nat, g': Get, p: nat)
    requires SetupOK(s) && Next(s, g, Write(i, k), g') && |g.tasks| == |s.blocks| && p < |g'.file|
    requires if p < |g.file| then g.file[p] == (if Covered(g, p) then Due(s, p) else 0) else !Covered(g, p)
    ensures g'.file[p] == if Covered(g', p) then Due(s, p) else 0
  {
    WriteCovers(s, g, i, k, g', p);
    var w := g.tasks[i].written;
    var off := i * BLOCK_SIZE + w;
    if off <= p < off + k {
      assert s.blocks[i][w..w + k][p - off] == s.blocks[i][OffsetIn(p)];
    }
  }

  lemma WriteEnds(s: Setup, g: Get, i: nat, k: nat, g': Get)
    requires SetupOK(s) && EndsCovered(g) && Next(s, g, Write(i, k), g')
    ensures EndsCovered(g')
  {
    forall p: nat | Covered(g', p) ensures p < |g'.file| {
      WriteCovers(s, g, i, k, g', p);
    }
    WriteCovers(s, g, i, k, g', |g'.file| - 1);
  }

  lemma WriteGood(s: Setup, g: Get, i: nat, k: nat, g': Get)
    requires SetupOK(s) && Good(s, g) && Next(s, g, Write(i, k), g')
    ensures Good(s, g')
  {
    forall p | 0 <= p < |g'.file| ensures g'.file[p] == if Covered(g', p) then Due(s, p) else 0 {
      WriteByte(s, g, i, k, g', p);
    }
    WriteEnds(s, g, i, k, g');
  }

  lemma OtherKeeps(s: Setup, g: Get, e: Event, g': Get)
    requires SetupOK(s) && Good(s, g) && Next(s, g, e, g') && !e.Write?
    ensures g'.file == g.file && |g'.tasks| == |s.blocks|
    ensures forall i :: 0 <= i < |g'.tasks| ==> InStep(g'.tasks[i], s.wsizes[i])
  {
  }

  lemma SameGood(s: Setup, g: Get, g': Get)
    requires SetupOK(s) && Good(s, g) && g'.file == g.file && |g'.tasks| == |s.blocks|
    requires forall i :: 0 <= i < |g'.tasks| ==> InStep(g'.tasks[i], s.wsizes[i])
    requires forall p: nat :: Covered(g', p) <==> Covered(g, p)
    ensures Good(s, g')
  {
  }

  lemma OtherCovers(s: Setup, g: Get, e: Event, g': Get, p: nat)
    requires SetupOK(s) && Good(s, g) && Next(s, g, e, g') && !e.Write?
    ensures Covered(g', p) <==> Covered(g, p)
  {
  }

  lemma NextGood(s: Setup, g: Get, e: Event, g': Get)
    requires SetupOK(s) && Good(s, g) && Next(s, g, e, g')
    ensures Good(s, g')
  {
    if e.Write? {
      WriteGood(s, g, e.i, e.k, g');
    } else {
      OtherKeeps(s, g, e, g');
      forall p: nat ensures Covered(g', p) <==> Covered(g, p) {
        OtherCovers(s, g, e, g', p);
      }
      SameGood(s, g, g');
    }
  }

  lemma {:induction false} RunGood(s: Setup, run: seq<Get>, events: seq<Event>, i: nat)
    requires SetupOK(s) && IsRun(s, run, events) && i < |run|
    ensures Good(s, run[i])
    decreases i
  {
    if i > 0 {
      RunGood(s, run, events, i - 1);
      NextGood(s, run[i - 1], events[i - 1], run[i]);
    }
  }

  // ---- What getFile leaves ----

  /** The servers hold the blocks of `content`. */
  ghost predicate Serves(s: Setup, content: seq<byte>)
  {
    && SetupOK(s)
    && |s.blocks| == |Chunked(content)| && s.wsizes == Schedule(|content|, |s.blocks|)
    && forall i :: 0 <= i < |s.blocks| ==>
      |Chunked(content)[i]| <= BLOCK_SIZE && s.blocks[i] == Stored(Chunked(content)[i])
  }

  /** What putFile and setupData make of a file can be fetched. */
  lemma PutServes(content: seq<byte>, resultLast: bool) returns (s: Setup)
    ensures Serves(s, content) && s.resultLast == resultLast
  {
    var cs := Chunked(content);
    forall i | 0 <= i < |cs| ensures |cs[i]| <= BLOCK_SIZE {
      ChunkedAt(content, i);
    }
    forall i | 0 <= i < |cs| ensures Schedule(|content|, |cs|)[i] <= BLOCK_SIZE {
      ScheduleAt(|content|, |cs|, i);
    }
    s := Setup(seq(|cs|, i requires 0 <= i < |cs| => Stored(cs[i])), Schedule(|content|, |cs|), resultLast);
  }

  /** The byte that is due somewhere in the file is the file's. */
  lemma DueIsContent(s: Setup, content: seq<byte>, p: nat)
    requires Serves(s, content) && p < |content|
    ensures BlockOf(p) < |s.blocks| && Due(s, p) == content[p] && OffsetIn(p) < s.wsizes[BlockOf(p)]
  {
    var i := BlockOf(p);
    ChunkedCount(content);
    ChunkedAt(content, i);
    ScheduleAt(|content|, |s.blocks|, i);
  }

  /** Nothing is written past the end of the file. */
  lemma CoveredInside(s: Setup, content: seq<byte>, g: Get, p: nat)
    requires Serves(s, content) && Good(s, g) && Covered(g, p)
    ensures p < |content|
  {
    ScheduleAt(|content|, |s.blocks|, BlockOf(p));
  }

  /** At any moment the file is right exactly when its last byte is there and every byte not written yet is a zero. */
  lemma WholeIff(s: Setup, content: seq<byte>, g: Get)
    requires Serves(s, content) && Reached(s, g)
    ensures g.file == content <==>
      (content != [] ==> Covered(g, |content| - 1)) && forall p :: 0 <= p < |content| && !Covered(g, p) ==>
        content[p] == 0
  {
    ReachedGood(s, g);
    FileBytes(s, content, g);
    if g.file == content {
      forall p | 0 <= p < |content| && !Covered(g, p) ensures content[p] == 0 {
        assert g.file[p] == 0;
      }
    }
  }

  /** The file is no longer than it should be, and holds its own bytes and zeros. */
  lemma FileBytes(s: Setup, content: seq<byte>, g: Get)
    requires Serves(s, content) && Good(s, g)
    ensures |g.file| <= |content|
    ensures forall p :: 0 <= p < |g.file| ==> g.file[p] == if Covered(g, p) then content[p] else 0
  {
    if g.file != [] {
      CoveredInside(s, content, g, |g.file| - 1);
    }
    forall p | 0 <= p < |g.file| ensures g.file[p] == if Covered(g, p) then content[p] else 0 {
      DueIsContent(s, content, p);
    }
  }

  lemma ReachedGood(s: Setup, g: Get)
    requires SetupOK(s) && Reached(s, g)
    ensures Good(s, g)
  {
    var run: seq<Get>, events: seq<Event> :| IsRun(s, run, events) && run[|events|] == g;
    RunGood(s, run, events, |events|);
  }

  ghost predicate AllEnded(g: Get) { forall t :: t in g.tasks ==> t.phase.Ended? }

  /** When every task has ended, in whatever order, the file is there. */
  lemma EndedIsWhole(s: Setup, content: seq<byte>, g: Get)
    requires Serves(s, content) && Reached(s, g) && AllEnded(g)
    ensures g.file == content
  {
    ReachedGood(s, g);
    forall p | 0 <= p < |content| ensures Covered(g, p) {
      DueIsContent(s, content, p);
      assert g.tasks[BlockOf(p)] in g.tasks;
    }
    WholeIff(s, content, g);
  }

  // ---- What its answer is worth ----

  /** A result of 1 belongs to an ended task. */
  ghost predicate Honest(g: Get)
  {
    && (forall t :: t in g.tasks && t.result == 1 ==> t.phase.Ended?)
    && g.seen <= |g.tasks| && (forall i :: 0 <= i < g.seen ==> g.tasks[i].phase.Ended?)
    && (g.returned ==> AllEnded(g))
  }

  lemma NextHonest(s: Setup, g: Get, e: Event, g': Get)
    requires SetupOK(s) && s.resultLast && |g.tasks| == |s.blocks| && Honest(g) && Next(s, g, e, g')
    ensures Honest(g')
  {
    forall t | t in g'.tasks && t.result == 1 ensures t.phase.Ended? {
      var i :| 0 <= i < |g'.tasks| && g'.tasks[i] == t;
      assert g.tasks[i] in g.tasks;
    }
    if g'.returned {
      forall t | t in g'.tasks ensures t.phase.Ended? {
        var i :| 0 <= i < |g'.tasks| && g'.tasks[i] == t;
        assert g.tasks[i] in g.tasks;
      }
    }
    if e.Look? {
      assert g.tasks[g.seen] in g.tasks;
    }
  }

  lemma {:induction false} RunHonest(s: Setup, run: seq<Get>, events: seq<Event>, i: nat)
    requires SetupOK(s) && s.resultLast && IsRun(s, run, events) && i < |run|
    ensures Honest(run[i])
    decreases i
  {
    if i > 0 {
      RunHonest(s, run, events, i - 1);
      RunGood(s, run, events, i - 1);
      NextHonest(s, run[i - 1], events[i - 1], run[i]);
    }
  }

  /** getFile has returned true, and its threads have been joined: what it left is the file. */
  ghost predicate KeepsWord(s: Setup, content: seq<byte>)
    requires SetupOK(s)
  {
    forall g :: Reached(s, g) && g.returned && Joined(g) ==> g.file == content
  }

  ghost predicate Joined(g: Get) { forall t :: t in g.tasks ==> t.phase.Ended? || t.phase.Failed? }

  lemma LastKeepsWord(s: Setup, content: seq<byte>)
    requires s.resultLast && Serves(s, content)
    ensures KeepsWord(s, content)
  {
    forall g | Reached(s, g) && g.returned ensures g.file == content {
      var run: seq<Get>, events: seq<Event> :| IsRun(s, run, events) && run[|events|] == g;
      RunHonest(s, run, events, |events|);
      EndedIsWhole(s, content, g);
    }
  }

  lemma OneMore(s: Setup, g: Get, e: Event, g': Get)
    requires SetupOK(s) && Reached(s, g) && Next(s, g, e, g')
    ensures Reached(s, g')
  {
    var run: seq<Get>, events: seq<Event> :| IsRun(s, run, events) && run[|events|] == g;
    assert IsRun(s, run + [g'], events + [e]) && (run + [g'])[|events + [e]|] == g';
  }

  // ---- One task after another, and the last one fails ----

  /** The first `k` tasks have ended, and the others are not handed out. */
  ghost predicate EndedUpTo(g: Get, n: nat, k: nat)
  {
    && |g.tasks| == n && g.handed == k <= n && g.seen == 0 && !g.returned
    && forall i :: 0 <= i < n ==>
         if i < k then g.tasks[i].phase.Ended? && g.tasks[i].result == 1 else g.tasks[i] == Task(Waiting, 0, 0)
  }

  function Handing(g: Get): Get { g.(handed := g.handed + 1) }

  function Beginning(s: Setup, g: Get, i: nat): Get
    requires i < |g.tasks|
  {
    g.(tasks := g.tasks[i := Task(Running, 0, Begun(s))])
  }

  /** The next task is handed out, and starts. */
  lemma Starts(s: Setup, g: Get, k: nat)
    requires SetupOK(s) && Reached(s, g) && k < |s.blocks| && EndedUpTo(g, |s.blocks|, k)
    ensures Reached(s, Beginning(s, Handing(g), k))
  {
    assert Unfinished(g) == {};
    OneMore(s, g, Hand, Handing(g));
    OneMore(s, Handing(g), Begin(k), Beginning(s, Handing(g), k));
  }

  /** A task that has started writes all it has to, and ends. */
  lemma RunsToEnd(s: Setup, g: Get, k: nat) returns (g': Get)
    requires SetupOK(s) && Reached(s, g) && |g.tasks| == |s.blocks| && k < |g.tasks|
    requires g.tasks[k].phase.Running? && g.tasks[k].written == 0
    ensures Reached(s, g') && g' == g.(file := g'.file, tasks := g.tasks[k := Task(Ended, s.wsizes[k], 1)])
  {
    var mid := g;
    if s.wsizes[k] > 0 {
      mid := g.(file := WriteAt(g.file, k * BLOCK_SIZE, s.blocks[k][0..s.wsizes[k]]),
                tasks := g.tasks[k := g.tasks[k].(written := s.wsizes[k])]);
      OneMore(s, g, Write(k, s.wsizes[k]), mid);
    }
    g' := mid.(tasks := mid.tasks[k := mid.tasks[k].(phase := Ended, result := 1)]);
    OneMore(s, mid, End(k), g');
    assert g'.tasks == g.tasks[k := Task(Ended, s.wsizes[k], 1)];
  }

  lemma {:induction false} CanEnd(s: Setup, k: nat) returns (g: Get)
    requires SetupOK(s) && k <= |s.blocks|
    ensures Reached(s, g) && EndedUpTo(g, |s.blocks|, k)
  {
    if k == 0 {
      g := Fresh(|s.blocks|);
      FreshReached(s);
    } else {
      var before := CanEnd(s, k - 1);
      Starts(s, before, k - 1);
      g := RunsToEnd(s, Beginning(s, Handing(before), k - 1), k - 1);
    }
  }

  lemma FreshReached(s: Setup)
    requires SetupOK(s)
    ensures Reached(s, Fresh(|s.blocks|))
  {
    var run: seq<Get>, events: seq<Event> := [Fresh(|s.blocks|)], [];
    assert IsRun(s, run, events) && run[|events|] == Fresh(|s.blocks|);
  }

  /** When all results are 1 the wait loop finds so, and getFile returns. */
  lemma {:induction false} CanLook(s: Setup, g: Get, seen: nat)
    requires SetupOK(s) && Reached(s, g) && g.handed == |g.tasks| && g.seen == 0 && !g.returned && seen <= |g.tasks|
    requires forall t :: t in g.tasks ==> t.result == 1
    ensures Reached(s, g.(seen := seen))
  {
    if seen > 0 {
      CanLook(s, g, seen - 1);
      assert g.tasks[seen - 1] in g.tasks;
      OneMore(s, g.(seen := seen - 1), Look, g.(seen := seen));
    } else {
      assert g.(seen := 0) == g;
    }
  }

  lemma CanReturn(s: Setup, g: Get)
    requires SetupOK(s) && Reached(s, g) && g.handed == |g.tasks| > 0 && g.seen == 0 && !g.returned
    requires forall t :: t in g.tasks ==> t.result == 1
    ensures Reached(s, g.(seen := |g.tasks|, returned := true))
  {
    CanLook(s, g, |g.tasks|);
    OneMore(s, g.(seen := |g.tasks|), Return, g.(seen := |g.tasks|, returned := true));
  }

  /**
   * As written, whatever the file: all tasks but the last end one after another, the last one starts, all results are
   * 1, getFile returns true, and then the last task finds no connection, so that the end of the file is missing.
   */
  lemma FirstBreaksWord(s: Setup, content: seq<byte>) returns (g: Get)
    requires !s.resultLast && Serves(s, content) && content != []
    ensures Reached(s, g) && g.returned && Joined(g) && g.file != content
  {
    var n := |s.blocks|;
    ChunkedCount(content);
    var before := CanEnd(s, n - 1);
    Starts(s, before, n - 1);
    var last := Beginning(s, Handing(before), n - 1);
    CanReturn(s, last);
    var back := last.(seen := n, returned := true);
    g := back.(tasks := back.tasks[n - 1 := back.tasks[n - 1].(phase := Failed, result := -1)]);
    OneMore(s, back, Fail(n - 1), g);
    LastIsMissing(s, content, g);
  }

  lemma LastIsMissing(s: Setup, content: seq<byte>, g: Get)
    requires Serves(s, content) && content != [] && Reached(s, g)
    requires |g.tasks| == |s.blocks| > 0 && g.tasks[|s.blocks| - 1].written == 0
    ensures g.file != content
  {
    DueIsContent(s, content, |content| - 1);
    ChunkedCount(content);
    WholeIff(s, content, g);
  }

  // ---- All tasks at once, and none of them writes ----

  /** The first `k` of `n` tasks are handed out and have begun, and said so already. */
  function Started(n: nat, k: nat): Get
  {
    Get([], seq(n, i => if i < k then Task(Running, 0, 1) else Task(Waiting, 0, 0)), k, 0, false)
  }

  /** getFile has returned, and the first `k` fail. */
  function Failing(n: nat, k: nat): Get
  {
    Get([], seq(n, i => if i < k then Task(Failed, 0, -1) else Task(Running, 0, 1)), n, n, true)
  }

  lemma {:induction false} FewBelow(xs: set<nat>, k: nat)
    requires forall i :: i in xs ==> i < k
    ensures |xs| <= k
  {
    if k > 0 {
      FewBelow(xs - {k - 1}, k - 1);
    } else {
      assert xs == {};
    }
  }

  lemma {:induction false} CanStart(s: Setup, k: nat)
    requires SetupOK(s) && !s.resultLast && k <= |s.blocks| <= THREADS
    ensures Reached(s, Started(|s.blocks|, k))
  {
    var n := |s.blocks|;
    if k == 0 {
      FreshReached(s);
      assert Started(n, 0) == Fresh(n);
    } else {
      CanStart(s, k - 1);
      var g, g' := Started(n, k - 1), Started(n, k);
      FewBelow(Unfinished(g), k - 1);
      OneMore(s, g, Hand, Handing(g));
      assert g'.tasks == g.tasks[k - 1 := Task(Running, 0, Begun(s))];
      OneMore(s, Handing(g), Begin(k - 1), g');
    }
  }

  lemma {:induction false} CanFail(s: Setup, k: nat)
    requires SetupOK(s) && !s.resultLast && k <= |s.blocks| <= THREADS && s.blocks != []
    ensures Reached(s, Failing(|s.blocks|, k))
  {
    var n := |s.blocks|;
    if k == 0 {
      CanStart(s, n);
      CanReturn(s, Started(n, n));
      assert Started(n, n).(seen := n, returned := true) == Failing(n, 0);
    } else {
      CanFail(s, k - 1);
      var g, g' := Failing(n, k - 1), Failing(n, k);
      assert g'.tasks == g.tasks[k - 1 := g.tasks[k - 1].(phase := Failed, result := -1)];
      OneMore(s, g, Fail(k - 1), g');
    }
  }

  /** With a thread for every block even a true answer over nothing is possible: all have begun, and then all fail. */
  lemma FirstLeavesNothing(s: Setup, content: seq<byte>) returns (g: Get)
    requires !s.resultLast && Serves(s, content) && content != [] && |s.blocks| <= THREADS
    ensures Reached(s, g) && g.returned && Joined(g) && g.file == []
  {
    ChunkedCount(content);
    CanFail(s, |s.blocks|);
    g := Failing(|s.blocks|, |s.blocks|);
  }

  /** Nobody waits for an answer about an empty file. */
  lemma EmptyNeverReturns(s: Setup, g: Get)
    requires Serves(s, []) && Reached(s, g)
    ensures !g.returned
  {
    var run: seq<Get>, events: seq<Event> :| IsRun(s, run, events) && run[|events|] == g;
    EmptyStays(s, run, events, |events|);
  }

  lemma {:induction false} EmptyStays(s: Setup, run: seq<Get>, events: seq<Event>, i: nat)
    requires Serves(s, []) && IsRun(s, run, events) && i < |run|
    ensures !run[i].returned
    decreases i
  {
    if i > 0 {
      EmptyStays(s, run, events, i - 1);
      RunGood(s, run, events, i - 1);
      assert Next(s, run[i - 1], events[i - 1], run[i]);
    }
  }

  /** The answer of getFile can be trusted exactly when tasks report their result last, or there is nothing to fetch. */
  lemma TrustedIff(s: Setup, content: seq<byte>)
    requires Serves(s, content)
    ensures KeepsWord(s, content) <==> s.resultLast || content == []
  {
    if s.resultLast {
      LastKeepsWord(s, content);
    } else if content == [] {
      forall g | Reached(s, g) ensures !g.returned {
        EmptyNeverReturns(s, g);
      }
    } else {
      var g := FirstBreaksWord(s, content);
    }
  }

  /** As written, no file with anything in it can be fetched with an answer that can be trusted. */
  lemma NoneTrusted(content: seq<byte>) returns (s: Setup)
    requires content != []
    ensures Serves(s, content) && !s.resultLast && !KeepsWord(s, content)
  {
    s := PutServes(content, false);
    TrustedIff(s, content);
  }
}
