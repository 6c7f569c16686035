/** The queue of pipes and its one-entry cache (pipeOpen, pipeClose and getPipe of
    Kernel/pipes/pipes.c). */
module PipeTable {
  import opened Wrappers
  import opened LinkedQueue
  import opened PipeBuffer
  import opened Pipes

  // ---------------------------------------------------------------- on values

  /** A pipe by its id and the number of processes that have it open. */
  datatype Entry = Entry(id: int, total: int)

  function HasId(id: int): Entry -> bool { (e: Entry) => e.id == id }

  function Opened(t: seq<Entry>, id: int): seq<Entry> {
    var k := FirstMatch(t, HasId(id));
    if k < |t| then t[k := Entry(id, t[k].total + 1)] else t + [Entry(id, 1)]
  }

  function Closed(t: seq<Entry>, id: int): seq<Entry> {
    var k := FirstMatch(t, HasId(id));
    if k == |t| then t
    else if t[k].total - 1 <= 0 then Without(t, HasId(id))
    else t[k := Entry(id, t[k].total - 1)]
  }

  /** One entry per id, and a pipe only while somebody has it open. */
  predicate Sound(t: seq<Entry>) {
    && (forall i, j :: 0 <= i < j < |t| ==> t[i].id != t[j].id)
    && forall i :: 0 <= i < |t| ==> t[i].total > 0
  }

  /** The number of processes that have pipe id open; 0 when there is no such pipe. */
  function Users(t: seq<Entry>, id: int): int {
    var k := FirstMatch(t, HasId(id));
    if k < |t| then t[k].total else 0
  }

  lemma UsersAt(t: seq<Entry>, k: nat)
    requires Sound(t) && k < |t|
    ensures FirstMatch(t, HasId(t[k].id)) == k && Users(t, t[k].id) == t[k].total
  {
    FirstMatchIsFirst(t, HasId(t[k].id), k);
  }

  lemma UsersAbsent(t: seq<Entry>, id: int)
    requires forall i :: 0 <= i < |t| ==> t[i].id != id
    ensures FirstMatch(t, HasId(id)) == |t| && Users(t, id) == 0
  {
    FirstMatchIsFirst(t, HasId(id), |t|);
  }

  lemma UsersFirst(t: seq<Entry>, id: int)
    ensures var k := FirstMatch(t, HasId(id));
      (forall i :: 0 <= i < k ==> t[i].id != id) && (k < |t| ==> t[k].id == id)
  {
    FirstMatchIsFirst(t, HasId(id), FirstMatch(t, HasId(id)));
  }

  /** A table whose entries outside position k are those of t has the same users of other ids. */
  lemma UsersElsewhere(t: seq<Entry>, t': seq<Entry>, id: int)
    requires Sound(t) && Sound(t')
    requires forall e: Entry :: e.id == id ==> (e in t <==> e in t')
    ensures Users(t, id) == Users(t', id)
  {
    UsersFirst(t, id);
    UsersFirst(t', id);
    var k, k' := FirstMatch(t, HasId(id)), FirstMatch(t', HasId(id));
    if k < |t| {
      assert t[k] in t';
      var j :| 0 <= j < |t'| && t'[j] == t[k];
      UsersAt(t', j);
    } else {
      forall i | 0 <= i < |t'| ensures t'[i].id != id {
        var e := t'[i];
        assert e in t';
      }
      UsersAbsent(t', id);
    }
  }

  lemma OpenCounts(t: seq<Entry>, id: int, other: int)
    requires Sound(t)
    ensures Sound(Opened(t, id))
    ensures Users(Opened(t, id), other) == Users(t, other) + if other == id then 1 else 0
  {
    UsersFirst(t, id);
    var t', k := Opened(t, id), FirstMatch(t, HasId(id));
    if other == id {
      UsersAt(t', k);
    } else {
      forall e: Entry | e.id == other ensures e in t <==> e in t' {
        if e in t {
          var i :| 0 <= i < |t| && t[i] == e;
          assert t'[i] == e;
        }
      }
      UsersElsewhere(t, t', other);
    }
  }

  lemma CloseSound(t: seq<Entry>, id: int)
    requires Sound(t)
    ensures Sound(Closed(t, id))
  {
    UsersFirst(t, id);
    var t', k := Closed(t, id), FirstMatch(t, HasId(id));
    if k < |t| && t[k].total == 1 {
      assert t' == t[..k] + t[k + 1..];
      assert forall i :: 0 <= i < |t'| ==> t'[i] == t[if i < k then i else i + 1];
    }
  }

  lemma UpdateOthers(t: seq<Entry>, k: nat, x: Entry, e: Entry)
    requires k < |t| && e != t[k] && e != x
    ensures e in t <==> e in t[k := x]
  {
    if e in t {
      var i :| 0 <= i < |t| && t[i] == e;
      assert t[k := x][i] == e;
    }
  }

  lemma CloseOthers(t: seq<Entry>, id: int, e: Entry)
    requires Sound(t) && e.id != id
    ensures e in t <==> e in Closed(t, id)
  {
    hide Without;
    UsersFirst(t, id);
    var k := FirstMatch(t, HasId(id));
    if k < |t| && t[k].total == 1 {
      TakenIsGone(t, HasId(id));
      assert !HasId(id)(e);
    } else if k < |t| {
      UpdateOthers(t, k, Entry(id, t[k].total - 1), e);
    }
  }

  lemma CloseCounts(t: seq<Entry>, id: int, other: int)
    requires Sound(t)
    ensures Sound(Closed(t, id))
    ensures Users(Closed(t, id), other) == Users(t, other) - if other == id && Users(t, id) > 0 then 1 else 0
  {
    CloseSound(t, id);
    UsersFirst(t, id);
    var t', k := Closed(t, id), FirstMatch(t, HasId(id));
    if other != id {
      forall e: Entry | e.id == other ensures e in t <==> e in t' {
        CloseOthers(t, id, e);
      }
      UsersElsewhere(t, t', other);
    } else if k < |t| && t[k].total == 1 {
      assert forall i :: 0 <= i < |t'| ==> t'[i] == t[if i < k then i else i + 1];
      UsersAbsent(t', id);
    } else if k < |t| {
      UsersAt(t', k);
    }
  }

  /** The last close of a pipe and only that one removes it: opening it again starts anew. */
  lemma CloseUndoesOpen(t: seq<Entry>, id: int)
    requires Sound(t)
    ensures Closed(Opened(t, id), id) == t
  {
    UsersFirst(t, id);
    var t', k := Opened(t, id), FirstMatch(t, HasId(id));
    FirstMatchIsFirst(t', HasId(id), k);
  }

  // ---------------------------------------------------------------- runs

  datatype Op = Open(id: int) | Close(id: int)

  /** The table after a run, latest call last. */
  function After(ops: seq<Op>): seq<Entry> {
    if ops == [] then []
    else
      var t := After(ops[..|ops| - 1]);
      match ops[|ops| - 1]
      case Open(id) => Opened(t, id)
      case Close(id) => Closed(t, id)
  }

  /** Opens minus closes of id, a close while the pipe does not exist not counting. */
  function Balance(ops: seq<Op>, id: int): nat {
    if ops == [] then 0
    else
      var b := Balance(ops[..|ops| - 1], id);
      match ops[|ops| - 1]
      case Open(x) => if x == id then b + 1 else b
      case Close(x) => if x == id && b > 0 then b - 1 else b
  }

  /** Over any run of calls: ids stay distinct, and a pipe exists exactly while it has been
      opened more often than closed. */
  lemma {:induction false} TableCounts(ops: seq<Op>, id: int)
    ensures Sound(After(ops))
    ensures Users(After(ops), id) == Balance(ops, id)
    ensures (exists i :: 0 <= i < |After(ops)| && After(ops)[i].id == id) <==> Balance(ops, id) > 0
  {
    var t := After(ops);
    if ops == [] {
    } else {
      var before := ops[..|ops| - 1];
      TableCounts(before, id);
      match ops[|ops| - 1]
      case Open(x) => OpenCounts(After(before), x, id);
      case Close(x) => CloseCounts(After(before), x, id);
    }
    UsersFirst(t, id);
  }

  // ---------------------------------------------------------------- the table in memory

  function IsPipe(id: int): PipeObject -> bool { (p: PipeObject) => p.id == id }

  ghost function EntriesOf(pipes: seq<PipeObject>): (t: seq<Entry>)
    reads pipes
    ensures |t| == |pipes| && forall i :: 0 <= i < |t| ==> t[i] == Entry(pipes[i].id, pipes[i].totalProcesses)
  {
    seq(|pipes|, i requires 0 <= i < |pipes| reads pipes => Entry(pipes[i].id, pipes[i].totalProcesses))
  }

  /** The pipes and their entries match at the same position. */
  lemma SameMatch(pipes: seq<PipeObject>, id: int)
    ensures FirstMatch(pipes, IsPipe(id)) == FirstMatch(EntriesOf(pipes), HasId(id))
  {
    var k := FirstMatch(pipes, IsPipe(id));
    FirstMatchIsFirst(pipes, IsPipe(id), k);
    FirstMatchIsFirst(EntriesOf(pipes), HasId(id), k);
  }

  /** A search finds a pipe exactly when somebody has it open. */
  lemma FoundHasUsers(pipes: seq<PipeObject>, id: int)
    requires Sound(EntriesOf(pipes))
    ensures FirstMatch(pipes, IsPipe(id)) < |pipes| <==> Users(EntriesOf(pipes), id) > 0
  {
    hide FirstMatch;
    SameMatch(pipes, id);
  }

  /** With distinct ids a search for a pipe of the queue finds that pipe. */
  lemma OnlyMatch(pipes: seq<PipeObject>, pipe: PipeObject)
    requires Sound(EntriesOf(pipes)) && pipe in pipes
    ensures var k := FirstMatch(pipes, IsPipe(pipe.id));
      k < |pipes| && pipes[k] == pipe
  {
    hide FirstMatch;
    SameMatch(pipes, pipe.id);
    var k :| 0 <= k < |pipes| && pipes[k] == pipe;
    UsersAt(EntriesOf(pipes), k);
  }

  class Table {
    const pipeQueue: Queue<PipeObject>
    var cachedPipe: PipeObject?
    /** What pipeQueue holds. */
    ghost var pipes: seq<PipeObject>

    ghost predicate Linked()
      reads this, pipeQueue, pipeQueue.nodes
    {
      && pipeQueue.Valid() && pipeQueue.Contents() == pipes
      && (cachedPipe != null ==> cachedPipe in pipes)
    }

    ghost predicate Valid()
      reads this, pipeQueue, pipeQueue.nodes, pipes
    {
      Linked() && Sound(Entries())
    }

    ghost function Entries(): seq<Entry>
      reads this, pipes
    {
      EntriesOf(pipes)
    }

    /** initPipeSystem. */
    constructor ()
      ensures Valid() && Entries() == []
    {
      pipeQueue := new Queue();
      cachedPipe, pipes := null, [];
    }

    /** getPipe: whether it answers from the cache or not, the answer is what a search of
        the queue would give. */
    method GetPipe(id: int) returns (pipe: PipeObject?)
      requires Valid()
      modifies `cachedPipe
      ensures Valid()
      ensures pipe == (match Found(pipeQueue.Contents(), IsPipe(id)) case None => null case Some(p) => p)
      ensures pipe == (var k := FirstMatch(pipes, IsPipe(id)); if k < |pipes| then pipes[k] else null)
      ensures pipe != null <==> Users(Entries(), id) > 0
    {
      hide EntriesOf, Sound, FirstMatch, IsPipe;
      FoundHasUsers(pipes, id);
      if cachedPipe != null && cachedPipe.id == id {
        pipe := cachedPipe;
        OnlyMatch(pipes, cachedPipe);
      } else {
        var found := pipeQueue.Find(IsPipe(id));
        pipe := if found.Some? then found.value else null;
        cachedPipe := pipe;
      }
    }

    /** createPipe. */
    method CreatePipe(id: int) returns (pipe: PipeObject)
      requires Linked()
      modifies this, pipeQueue, pipeQueue.nodes
      ensures Linked() && fresh(pipe) && pipe.id == id && pipes == old(pipes) + [pipe]
      ensures fresh(pipe.buffer) && pipe.State() == Created(pipe.buffer[..])
      ensures Entries() == old(Entries()) + [Entry(id, 0)]
    {
      hide EntriesOf, Created, Inv, InOrder, Sound;
      pipe := new PipeObject(id);
      pipeQueue.Enqueue(pipe);
      pipes := pipes + [pipe];
    }

    /** One process more or less. */
    method Adjust(pipe: PipeObject, delta: int, ghost k: nat)
      requires Linked() && k < |pipes| && pipes[k] == pipe
      requires forall i :: 0 <= i < |pipes| && i != k ==> pipes[i] != pipe
      modifies pipe`totalProcesses
      ensures Linked() && pipe.totalProcesses == old(pipe.totalProcesses) + delta
      ensures Entries() == old(Entries())[k := Entry(pipe.id, old(pipe.totalProcesses) + delta)]
    {
      hide EntriesOf;
      pipe.totalProcesses := pipe.totalProcesses + delta;
    }

    /** removeElement on the queue of pipes, and the cache that must not outlive its pipe. */
    method Destroy(id: int)
      requires Linked() && DistinctIds(pipes)
      modifies this, pipeQueue, pipeQueue.nodes
      ensures Linked() && pipes == Without(old(pipes), IsPipe(id))
      ensures Entries() == Without(old(Entries()), HasId(id))
    {
      hide FirstMatch, EntriesOf, Without, Found, DistinctIds, IsPipe;
      ghost var was, left := pipes, Without(pipes, IsPipe(id));
      WithoutPipe(was, id);
      assert cachedPipe != null && cachedPipe.id != id ==> cachedPipe in left;
      var gone := pipeQueue.TakeElement(IsPipe(id));
      pipes := left;
      if cachedPipe != null && cachedPipe.id == id {
        cachedPipe := null;
      }
      EntriesWithout(was, id);
    }

    /** pipeOpen, with allPipesSem free. */
    method PipeOpen(id: int) returns (r: int)
      requires Valid()
      modifies this, pipeQueue, pipeQueue.nodes, pipes`totalProcesses
      ensures Valid() && r == id
      ensures Entries() == Opened(old(Entries()), id)
      // No pipe is exchanged; a pipe that had to be created comes last and is empty.
      ensures |pipes| >= |old(pipes)| && pipes[..|old(pipes)|] == old(pipes)
      ensures forall p :: p in pipes ==> p in old(pipes) || p.State() == Created(p.buffer[..])
    {
      hide Sound, Linked, FirstMatch, EntriesOf, IsPipe, Created;
      ghost var t, k := Entries(), FirstMatch(pipes, IsPipe(id));
      Positions(pipes, id);
      OpenCounts(t, id, id);
      var pipe := GetPipe(id);
      if pipe == null {
        pipe := CreatePipe(id);
        assert t + [Entry(id, 1)] == (t + [Entry(id, 0)])[k := Entry(id, 1)];
      }
      Adjust(pipe, 1, k);
      return pipe.id;
    }

    /** pipeClose, with allPipesSem free. */
    method PipeClose(id: int) returns (r: int)
      requires Valid()
      modifies this, pipeQueue, pipeQueue.nodes, pipes`totalProcesses
      ensures Valid() && r == (if Users(old(Entries()), id) > 0 then 0 else -1)
      ensures Entries() == Closed(old(Entries()), id)
      // No pipe is exchanged here either, and only one that loses its last user goes.
      ensures pipes == if Users(old(Entries()), id) == 1 then Without(old(pipes), IsPipe(id)) else old(pipes)
    {
      hide Sound, Linked, FirstMatch, EntriesOf, IsPipe;
      ghost var t, k := Entries(), FirstMatch(pipes, IsPipe(id));
      Positions(pipes, id);
      CloseSound(t, id);
      var pipe := GetPipe(id);
      if pipe == null {
        return -1;
      }
      Adjust(pipe, -1, k);
      if pipe.totalProcesses <= 0 {
        WithoutUpdated(t, id, Entry(id, t[k].total - 1));
        Destroy(id);
      }
      return 0;
    }
  }

  lemma WithoutUpdated(t: seq<Entry>, id: int, e: Entry)
    requires e.id == id
    ensures var k := FirstMatch(t, HasId(id));
      k < |t| ==> Without(t[k := e], HasId(id)) == Without(t, HasId(id))
  {
    UsersFirst(t, id);
    var k := FirstMatch(t, HasId(id));
    if k < |t| {
      FirstMatchIsFirst(t[k := e], HasId(id), k);
    }
  }

  predicate DistinctIds(pipes: seq<PipeObject>) {
    forall i, j :: 0 <= i < j < |pipes| ==> pipes[i].id != pipes[j].id
  }

  /** A pipe with another id stays. */
  lemma WithoutPipe(pipes: seq<PipeObject>, id: int)
    requires DistinctIds(pipes)
    ensures forall p :: p in pipes && p.id != id ==> p in Without(pipes, IsPipe(id))
  {
    TakenIsGone(pipes, IsPipe(id));
    forall p | p in pipes && p.id != id ensures p in Without(pipes, IsPipe(id)) {
      assert !IsPipe(id)(p);
    }
  }

  lemma EntriesWithout(pipes: seq<PipeObject>, id: int)
    ensures EntriesOf(Without(pipes, IsPipe(id))) == Without(EntriesOf(pipes), HasId(id))
  {
    hide FirstMatch, EntriesOf, IsPipe, HasId;
    SameMatch(pipes, id);
  }

  /** In a sound table the pipe of an id stands at one position only. */
  lemma Positions(pipes: seq<PipeObject>, id: int)
    requires Sound(EntriesOf(pipes))
    ensures DistinctIds(pipes)
    ensures var k := FirstMatch(pipes, IsPipe(id));
      && k == FirstMatch(EntriesOf(pipes), HasId(id))
      && (k < |pipes| ==> pipes[k].id == id && forall i :: 0 <= i < |pipes| && i != k ==> pipes[i] != pipes[k])
  {
    hide FirstMatch, EntriesOf;
    SameMatch(pipes, id);
    UsersFirst(EntriesOf(pipes), id);
    var t := EntriesOf(pipes);
    forall i, j | 0 <= i < j < |pipes| ensures pipes[i].id != pipes[j].id {
      assert t[i].id != t[j].id;
    }
  }
}
