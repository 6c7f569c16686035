/** One pipe as Kernel/pipes/pipes.c keeps it: a circular array written and read in place,
    each method one stretch of code between semaphore operations. */
module PipeBuffer {
  import opened Handoff
  import opened Pipes

  class PipeObject {
    const id: int
    const buffer: array<char>
    var readIndex: nat
    var writeIndex: nat
    var totalProcesses: int
    var readSem: Sem
    var writeSem: Sem
    ghost var phase: map<int, Phase>
    ghost var entered: seq<(int, char)>
    ghost var written: seq<(int, char)>
    ghost var read: seq<(int, char)>

    ghost function State(): Pipe
      reads this, buffer
    {
      Pipe(buffer[..], readIndex, writeIndex, readSem, writeSem, phase, entered, written, read)
    }

    /** createPipe, without the entry in the queue of pipes. */
    constructor (id: int)
      ensures this.id == id && totalProcesses == 0 && fresh(buffer)
      ensures State() == Created(buffer[..]) && Inv(State()) && InOrder(State())
    {
      this.id := id;
      buffer := new char[PIPE_BUFFER_SIZE];
      readIndex, writeIndex, totalProcesses := 0, 0, 0;
      readSem, writeSem := Sem(0, []), Sem(PIPE_BUFFER_SIZE, []);
      phase, entered, written, read := map[], [], [], [];
      new;
      CreatedInv(buffer[..]);
    }

    /** semWait on the bytes; go tells whether the reader may go on at once. */
    method EnterRead(pid: int) returns (go: bool)
      requires Inv(State()) && Enabled(State(), Step.EnterRead(pid))
      modifies this
      ensures State() == Do(old(State()), Step.EnterRead(pid)) && Inv(State())
      ensures go <==> |old(written)| - |old(read)| > |Readers(old(State()))|
      ensures go <==> phase[pid] == GrantedRead
      ensures totalProcesses == old(totalProcesses)
    {
      hide Inv;
      StepKeepsInv(State(), Step.EnterRead(pid));
      BalanceOf(State());
      var r := Wait(readSem, pid);
      readSem, go := r.0, r.1;
      phase := phase[pid := if go then GrantedRead else WaitingRead];
    }

    /** The reader takes the oldest unread byte and gives its slot back. */
    method FinishRead(pid: int) returns (c: char)
      requires Inv(State()) && Enabled(State(), Step.FinishRead(pid))
      modifies this
      ensures State() == Do(old(State()), Step.FinishRead(pid)) && Inv(State())
      ensures |old(read)| < |written| && c == written[|old(read)|].1
      ensures totalProcesses == old(totalProcesses)
    {
      hide Inv;
      StepKeepsInv(State(), Step.FinishRead(pid));
      NextUnread(State(), pid);
      c := buffer[readIndex];
      read := read + [(pid, c)];
      readIndex := (readIndex + 1) % PIPE_BUFFER_SIZE;
      var r := Post(writeSem);
      writeSem := r.0;
      phase := Released(phase[pid := Outside], r.1);
    }

    /** semWait on the free slots. */
    method EnterWrite(pid: int, c: char) returns (go: bool)
      requires Inv(State()) && Enabled(State(), Step.EnterWrite(pid, c))
      modifies this
      ensures State() == Do(old(State()), Step.EnterWrite(pid, c)) && Inv(State())
      ensures go <==> PIPE_BUFFER_SIZE - (|old(written)| - |old(read)|) > |Writers(old(State()))|
      ensures go <==> phase[pid] == GrantedWrite(c)
      ensures totalProcesses == old(totalProcesses)
    {
      hide Inv;
      StepKeepsInv(State(), Step.EnterWrite(pid, c));
      BalanceOf(State());
      var r := Wait(writeSem, pid);
      writeSem, go := r.0, r.1;
      phase := phase[pid := if go then GrantedWrite(c) else WaitingWrite(c)];
      entered := entered + [(pid, c)];
    }

    /** The writer stores its byte over one already read, and gives a byte to the readers. */
    method FinishWrite(pid: int, c: char)
      requires Inv(State()) && Enabled(State(), Step.FinishWrite(pid)) && phase[pid] == GrantedWrite(c)
      modifies this, buffer
      ensures State() == Do(old(State()), Step.FinishWrite(pid)) && Inv(State())
      ensures written == old(written) + [(pid, c)]
      ensures totalProcesses == old(totalProcesses)
    {
      hide Inv;
      StepKeepsInv(State(), Step.FinishWrite(pid));
      buffer[writeIndex] := c;
      written := written + [(pid, c)];
      writeIndex := (writeIndex + 1) % PIPE_BUFFER_SIZE;
      var r := Post(readSem);
      readSem := r.0;
      phase := Released(phase[pid := Outside], r.1);
    }
  }

  lemma BalanceOf(s: Pipe)
    requires Inv(s)
    ensures |s.written| - |s.read| == s.readSem.value + |Readers(s)|
    ensures PIPE_BUFFER_SIZE - (|s.written| - |s.read|) == s.writeSem.value + |Writers(s)|
  {}

  /** What a reader that was let through finds at readIndex. */
  lemma NextUnread(s: Pipe, pid: int)
    requires Inv(s) && PhaseOf(s.phase, pid) == GrantedRead
    ensures |s.read| < |s.written| && s.readIndex < |s.buffer| && s.buffer[s.readIndex] == s.written[|s.read|].1
  {
    assert pid in Readers(s);
  }
}
