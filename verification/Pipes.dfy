/** A pipe between any number of blocking readers and writers (Kernel/pipes/pipes.c): a
    circular buffer guarded by a semaphore of bytes and a semaphore of free slots. Between
    semWait and the buffer access any other process may run. */
module Pipes {
  import opened Wrappers
  import opened Handoff

  const PIPE_BUFFER_SIZE: nat := 1024

  /** Where a process is inside pipeRead or writeToPipe. */
  datatype Phase = Outside | WaitingRead | GrantedRead | WaitingWrite(c: char) | GrantedWrite(c: char)

  /** entered, written and read are history variables: the bytes that writers brought, the
      bytes stored and the bytes returned, each with the process that did it. */
  datatype Pipe = Pipe(
    buffer: seq<char>, readIndex: nat, writeIndex: nat, readSem: Sem, writeSem: Sem,
    phase: map<int, Phase>, entered: seq<(int, char)>, written: seq<(int, char)>, read: seq<(int, char)>)

  function PhaseOf(phase: map<int, Phase>, p: int): Phase {
    if p in phase then phase[p] else Outside
  }

  // ---------------------------------------------------------------- steps

  datatype Step = EnterRead(p: int) | FinishRead(p: int) | EnterWrite(p: int, c: char) | FinishWrite(p: int)

  predicate Enabled(s: Pipe, step: Step) {
    && |s.buffer| == PIPE_BUFFER_SIZE && s.readIndex < PIPE_BUFFER_SIZE && s.writeIndex < PIPE_BUFFER_SIZE
    && match step
       case EnterRead(p) => PhaseOf(s.phase, p) == Outside
       case FinishRead(p) => PhaseOf(s.phase, p) == GrantedRead
       case EnterWrite(p, _) => PhaseOf(s.phase, p) == Outside
       case FinishWrite(p) => PhaseOf(s.phase, p).GrantedWrite?
  }

  function Granted(phase: Phase): Phase {
    match phase
    case WaitingRead => GrantedRead
    case WaitingWrite(c) => GrantedWrite(c)
    case _ => phase
  }

  /** The process woken by a post, if any, may go on. */
  function Released(phase: map<int, Phase>, woken: Option<int>): map<int, Phase> {
    match woken
    case None => phase
    case Some(q) => phase[q := Granted(PhaseOf(phase, q))]
  }

  function Do(s: Pipe, step: Step): Pipe
    requires Enabled(s, step)
  {
    match step
    case EnterRead(p) =>
      var (sem, now) := Wait(s.readSem, p);
      s.(readSem := sem, phase := s.phase[p := if now then GrantedRead else WaitingRead])
    case FinishRead(p) =>
      var (sem, woken) := Post(s.writeSem);
      s.(readIndex := (s.readIndex + 1) % PIPE_BUFFER_SIZE, writeSem := sem,
         phase := Released(s.phase[p := Outside], woken), read := s.read + [(p, s.buffer[s.readIndex])])
    case EnterWrite(p, c) =>
      var (sem, now) := Wait(s.writeSem, p);
      s.(writeSem := sem, phase := s.phase[p := if now then GrantedWrite(c) else WaitingWrite(c)],
          entered := s.entered + [(p, c)])
    case FinishWrite(p) =>
      var c := s.phase[p].c;
      var (sem, woken) := Post(s.readSem);
      s.(buffer := s.buffer[s.writeIndex := c], writeIndex := (s.writeIndex + 1) % PIPE_BUFFER_SIZE, readSem := sem,
         phase := Released(s.phase[p := Outside], woken), written := s.written + [(p, c)])
  }

  // ---------------------------------------------------------------- invariant

  function Chars(l: seq<(int, char)>): (r: seq<char>)
    ensures |r| == |l| && forall i :: 0 <= i < |l| ==> r[i] == l[i].1
  {
    seq(|l|, i requires 0 <= i < |l| => l[i].1)
  }

  function Readers(s: Pipe): set<int> { set p | p in s.phase && s.phase[p] == GrantedRead }

  function Writers(s: Pipe): set<int> { set p | p in s.phase && s.phase[p].GrantedWrite? }

  /** Bytes in the buffer are what the read semaphore and the readers let through account
      for; free slots likewise on the other side. */
  ghost predicate Balanced(s: Pipe) {
    && |s.read| <= |s.written| <= |s.read| + PIPE_BUFFER_SIZE
    && |s.written| - |s.read| == s.readSem.value + |Readers(s)|
    && PIPE_BUFFER_SIZE - (|s.written| - |s.read|) == s.writeSem.value + |Writers(s)|
  }

  /** The unread bytes lie in the buffer, each where the circular indices say. */
  ghost predicate Buffered(s: Pipe) {
    && |s.buffer| == PIPE_BUFFER_SIZE
    && s.readIndex == |s.read| % PIPE_BUFFER_SIZE && s.writeIndex == |s.written| % PIPE_BUFFER_SIZE
    && |s.read| <= |s.written|
    && (forall i :: |s.read| <= i < |s.written| ==> s.buffer[i % PIPE_BUFFER_SIZE] == s.written[i].1)
    && Chars(s.read) == Chars(s.written)[..|s.read|]
  }

  /** The queues hold exactly the processes that wait. */
  ghost predicate Queues(s: Pipe) {
    && Fair(s.readSem) && Fair(s.writeSem)
    && (forall p :: p in s.readSem.blocked <==> PhaseOf(s.phase, p) == WaitingRead)
    && (forall p :: p in s.writeSem.blocked <==> PhaseOf(s.phase, p).WaitingWrite?)
  }

  ghost predicate Inv(s: Pipe) { Balanced(s) && Buffered(s) && Queues(s) }

  // ---------------------------------------------------------------- every step keeps it

  lemma QueuesKeptEntering(s: Pipe, step: Step)
    requires Queues(s) && Enabled(s, step) && (step.EnterRead? || step.EnterWrite?)
    ensures Queues(Do(s, step))
  {
    hide Fair;
    match step
    case EnterRead(p) => WaitFair(s.readSem, p);
    case EnterWrite(p, c) => WaitFair(s.writeSem, p);
  }

  lemma QueuesKeptFinishing(s: Pipe, step: Step)
    requires Queues(s) && Enabled(s, step) && (step.FinishRead? || step.FinishWrite?)
    ensures Queues(Do(s, step))
  {
    hide Fair;
    match step
    case FinishRead(p) => PostFair(s.writeSem); WakesWaiter(s.writeSem);
    case FinishWrite(p) => PostFair(s.readSem); WakesWaiter(s.readSem);
  }

  lemma QueuesKept(s: Pipe, step: Step)
    requires Queues(s) && Enabled(s, step)
    ensures Queues(Do(s, step))
  {
    hide Queues, Do;
    if step.EnterRead? || step.EnterWrite? {
      QueuesKeptEntering(s, step);
    } else {
      QueuesKeptFinishing(s, step);
    }
  }

  /** How the sets of processes let through change. */
  lemma GrantedSets(s: Pipe, step: Step)
    requires Queues(s) && Enabled(s, step)
    ensures var s' := Do(s, step);
      match step
      case EnterRead(p) => Writers(s') == Writers(s) && p !in Readers(s)
          && Readers(s') == Readers(s) + (if s.readSem.value > 0 then {p} else {})
      case EnterWrite(p, _) => Readers(s') == Readers(s) && p !in Writers(s)
          && Writers(s') == Writers(s) + (if s.writeSem.value > 0 then {p} else {})
      case FinishRead(p) =>
        && p in Readers(s) && Readers(s') == Readers(s) - {p}
        && var woken := if s.writeSem.blocked == [] then {} else {s.writeSem.blocked[0]};
        woken !! Writers(s) && Writers(s') == Writers(s) + woken
      case FinishWrite(p) =>
        && p in Writers(s) && Writers(s') == Writers(s) - {p}
        && var woken := if s.readSem.blocked == [] then {} else {s.readSem.blocked[0]};
        woken !! Readers(s) && Readers(s') == Readers(s) + woken
  {
    match step
    case EnterRead(p) =>
    case EnterWrite(p, c) =>
    case FinishRead(p) => WakesWaiter(s.writeSem);
    case FinishWrite(p) => WakesWaiter(s.readSem);
  }

  lemma BalanceKept(s: Pipe, step: Step)
    requires Balanced(s) && Queues(s) && Enabled(s, step)
    ensures Balanced(Do(s, step))
  {
    GrantedSets(s, step);
  }

  /** Two positions less than a buffer apart never share a cell. */
  lemma CellsDiffer(i: nat, j: nat)
    requires i < j < i + PIPE_BUFFER_SIZE
    ensures i % PIPE_BUFFER_SIZE != j % PIPE_BUFFER_SIZE
  {}

  lemma NextCell(i: nat)
    ensures (i % PIPE_BUFFER_SIZE + 1) % PIPE_BUFFER_SIZE == (i + 1) % PIPE_BUFFER_SIZE
  {}

  lemma BufferKeptByRead(s: Pipe, p: int)
    requires Balanced(s) && Buffered(s) && Enabled(s, FinishRead(p))
    ensures Buffered(Do(s, FinishRead(p)))
  {
    hide Post, Released;
    var s' := Do(s, FinishRead(p));
    NextCell(|s.read|);
    assert |s.read| < |s.written| by { assert p in Readers(s); }
    assert Chars(s'.read) == Chars(s.read) + [s.written[|s.read|].1];
  }

  lemma BufferKeptByWrite(s: Pipe, p: int)
    requires Balanced(s) && Buffered(s) && Enabled(s, FinishWrite(p))
    ensures Buffered(Do(s, FinishWrite(p)))
  {
    hide Post, Released;
    var s' := Do(s, FinishWrite(p));
    NextCell(|s.written|);
    assert |s.written| < |s.read| + PIPE_BUFFER_SIZE by { assert p in Writers(s); }
    forall i | |s.read| <= i < |s.written| ensures s'.buffer[i % PIPE_BUFFER_SIZE] == s.written[i].1 {
      CellsDiffer(i, |s.written|);
    }
    assert Chars(s'.written)[..|s.read|] == Chars(s.written)[..|s.read|];
  }

  lemma BufferKept(s: Pipe, step: Step)
    requires Balanced(s) && Buffered(s) && Enabled(s, step)
    ensures Buffered(Do(s, step))
  {
    match step
    case EnterRead(p) =>
    case EnterWrite(p, c) =>
    case FinishRead(p) => BufferKeptByRead(s, p);
    case FinishWrite(p) => BufferKeptByWrite(s, p);
  }

  lemma StepKeepsInv(s: Pipe, step: Step)
    requires Inv(s) && Enabled(s, step)
    ensures Inv(Do(s, step))
  {
    QueuesKept(s, step);
    BalanceKept(s, step);
    BufferKept(s, step);
  }

  // ---------------------------------------------------------------- order per writer

  /** The bytes of process p, in order. */
  function Of(l: seq<(int, char)>, p: int): seq<char> {
    if l == [] then []
    else Of(l[..|l| - 1], p) + (if l[|l| - 1].0 == p then [l[|l| - 1].1] else [])
  }

  function Pending(s: Pipe, p: int): seq<char> {
    match PhaseOf(s.phase, p)
    case WaitingWrite(c) => [c]
    case GrantedWrite(c) => [c]
    case _ => []
  }

  /** What a writer brought has been stored in its order, but for the byte it still holds. */
  ghost predicate InOrder(s: Pipe) {
    forall p :: Of(s.entered, p) == Of(s.written, p) + Pending(s, p)
  }

  lemma OfAppend(l: seq<(int, char)>, x: (int, char), p: int)
    ensures Of(l + [x], p) == Of(l, p) + (if x.0 == p then [x.1] else [])
  {
    assert (l + [x])[..|l|] == l;
  }

  lemma OrderKept(s: Pipe, step: Step)
    requires Queues(s) && InOrder(s) && Enabled(s, step)
    ensures InOrder(Do(s, step))
  {
    hide Queues, Of, Pending, Do;
    var s' := Do(s, step);
    forall p ensures Of(s'.entered, p) == Of(s'.written, p) + Pending(s', p) {
      PendingMoves(s, step, p);
      match step
      case EnterWrite(q, c) => OfAppend(s.entered, (q, c), p);
      case FinishWrite(q) => OfAppend(s.written, (q, s.phase[q].c), p);
      case _ =>
    }
  }

  /** A byte is pending from where it is brought to where it is stored, and no other step
      changes what is pending, whoever is let through. */
  lemma PendingMoves(s: Pipe, step: Step, p: int)
    requires Queues(s) && Enabled(s, step)
    ensures var s' := Do(s, step);
      match step
      case EnterWrite(q, c) =>
        && s'.entered == s.entered + [(q, c)] && s'.written == s.written
        && Pending(s', p) == Pending(s, p) + (if q == p then [c] else [])
      case FinishWrite(q) =>
        && s'.entered == s.entered && s'.written == s.written + [(q, s.phase[q].c)]
        && Pending(s, p) == (if q == p then [s.phase[q].c] else []) + Pending(s', p)
      case _ =>
        s'.entered == s.entered && s'.written == s.written && Pending(s', p) == Pending(s, p)
  {
    match step
    case FinishRead(q) => WakesWaiter(s.writeSem);
    case FinishWrite(q) => WakesWaiter(s.readSem);
    case _ =>
  }

  // ---------------------------------------------------------------- runs

  /** createPipe: an empty buffer of any contents. */
  function Created(buffer: seq<char>): Pipe {
    Pipe(buffer, 0, 0, Sem(0, []), Sem(PIPE_BUFFER_SIZE, []), map[], [], [], [])
  }

  lemma CreatedInv(buffer: seq<char>)
    requires |buffer| == PIPE_BUFFER_SIZE
    ensures Inv(Created(buffer)) && InOrder(Created(buffer))
  {
    var s := Created(buffer);
    assert Readers(s) == {} && Writers(s) == {};
  }

  ghost predicate Next(s: Pipe, step: Step, s': Pipe) {
    Enabled(s, step) && s' == Do(s, step)
  }

  /** Any interleaving of any readers and writers. */
  ghost predicate IsRun(states: seq<Pipe>, steps: seq<Step>) {
    && |states| == |steps| + 1
    && |states[0].buffer| == PIPE_BUFFER_SIZE && states[0] == Created(states[0].buffer)
    && forall i :: 0 <= i < |steps| ==> Next(states[i], steps[i], states[i + 1])
  }

  lemma {:induction false} RunKeepsInv(states: seq<Pipe>, steps: seq<Step>, i: nat)
    requires IsRun(states, steps) && i <= |steps|
    ensures Inv(states[i]) && InOrder(states[i])
    decreases i
  {
    if i == 0 {
      CreatedInv(states[0].buffer);
    } else {
      RunKeepsInv(states, steps, i - 1);
      assert Next(states[i - 1], steps[i - 1], states[i - 1 + 1]);
      StepKeepsInv(states[i - 1], steps[i - 1]);
      OrderKept(states[i - 1], steps[i - 1]);
    }
  }

  /** First in, first out: at every point of every run the bytes read are a prefix of the
      bytes written, the unread ones are intact in the buffer, and each writer's bytes are
      stored in the order in which it brought them. */
  lemma PipeIsFifo(states: seq<Pipe>, steps: seq<Step>, i: nat)
    requires IsRun(states, steps) && i <= |steps|
    ensures Chars(states[i].read) <= Chars(states[i].written)
    ensures |states[i].written| - |states[i].read| == states[i].readSem.value + |Readers(states[i])| <= PIPE_BUFFER_SIZE
    ensures PIPE_BUFFER_SIZE - (|states[i].written| - |states[i].read|) ==
            states[i].writeSem.value + |Writers(states[i])|
    ensures |states[i].buffer| == PIPE_BUFFER_SIZE
    ensures forall k :: |states[i].read| <= k < |states[i].written| ==>
            states[i].buffer[k % PIPE_BUFFER_SIZE] == states[i].written[k].1
    ensures forall p :: Of(states[i].entered, p) == Of(states[i].written, p) + Pending(states[i], p)
  {
    RunKeepsInv(states, steps, i);
  }

  /** Nobody is stuck: while a process waits, some process that has been let through can
      still take its step, or the pipe is empty (for readers) or full (for writers) with
      no one on the other side. */
  lemma NoStuckWaiters(states: seq<Pipe>, steps: seq<Step>, i: nat)
    requires IsRun(states, steps) && i <= |steps|
    ensures states[i].readSem.blocked != [] && Readers(states[i]) == {} ==> |states[i].written| == |states[i].read|
    ensures states[i].writeSem.blocked != [] && Writers(states[i]) == {} ==>
            |states[i].written| == |states[i].read| + PIPE_BUFFER_SIZE
    ensures states[i].readSem.blocked != [] && states[i].writeSem.blocked != [] ==>
            Readers(states[i]) + Writers(states[i]) != {}
  {
    RunKeepsInv(states, steps, i);
    var s := states[i];
    if Readers(s) + Writers(s) == {} {
      assert Readers(s) == {} && Writers(s) == {};
    }
  }
}
