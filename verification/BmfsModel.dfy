/** The directory of a BareMetal File System disk and how a file is given its blocks
    (Bootloader/BMFS/bmfs.c), on values. */
module BmfsModel {
  import opened Wrappers

  const RECORDS: nat := 64
  const TWO_31: nat := 0x8000_0000
  const TWO_64: nat := 0x1_0000_0000_0000_0000

  /** A record of the directory; name is FileName up to its terminator. */
  datatype Entry = Entry(name: string, start: nat, reserved: nat, fileSize: nat, unused: nat)

  /** FileName[0] is 0x00: the directory ends here. */
  predicate IsEnd(e: Entry) { e.name == "" }

  /** FileName[0] is 0x01: a record that was deleted. */
  predicate IsDeleted(e: Entry) { e.name != "" && e.name[0] == 1 as char }

  predicate IsFile(e: Entry) { !IsEnd(e) && !IsDeleted(e) }

  /** Names that the record can hold and that do not read as a marker. */
  predicate IsName(name: string) { 0 < |name| < 32 && name[0] != 1 as char && '\0' !in name }

  /** Records in front of the end marker. */
  function Used(dir: seq<Entry>): (n: nat)
    ensures n <= |dir|
    ensures forall i :: 0 <= i < n ==> !IsEnd(dir[i])
    ensures n < |dir| ==> IsEnd(dir[n])
  {
    if dir == [] || IsEnd(dir[0]) then 0 else 1 + Used(dir[1..])
  }

  lemma {:induction false} UsedIs(dir: seq<Entry>, n: nat)
    requires n <= |dir| && (forall i :: 0 <= i < n ==> !IsEnd(dir[i])) && (n < |dir| ==> IsEnd(dir[n]))
    ensures Used(dir) == n
  {
    if n == 0 {
    } else {
      assert forall i :: 0 <= i < n - 1 ==> dir[1..][i] == dir[i + 1];
      UsedIs(dir[1..], n - 1);
    }
  }

  predicate Apart(a: Entry, b: Entry) {
    a.start + a.reserved <= b.start || b.start + b.reserved <= a.start
  }

  predicate AllApart(s: seq<Entry>) {
    forall i, j :: 0 <= i < j < |s| ==> Apart(s[i], s[j])
  }

  /** A file with at least one block, between the first block and the last. */
  predicate Placed(e: Entry, blocks: nat) {
    IsFile(e) && 1 <= e.start && 0 < e.reserved && e.start + e.reserved < blocks
  }

  /** No deleted records: every record in use is a file of its own blocks and its own name. */
  predicate Sound(dir: seq<Entry>, blocks: nat) {
    && |dir| == RECORDS && 3 <= blocks < TWO_31
    && (forall i :: 0 <= i < Used(dir) ==> Placed(dir[i], blocks))
    && AllApart(dir[..Used(dir)])
    && forall i, j :: 0 <= i < j < Used(dir) ==> dir[i].name != dir[j].name
  }

  predicate Taken(dir: seq<Entry>, name: string) {
    exists i :: 0 <= i < Used(dir) && dir[i].name == name && !IsDeleted(dir[i])
  }

  // ---------------------------------------------------------------- sorting

  /** x as a two's complement int. */
  function Int32(x: int): int { (x + TWO_31) % (2 * TWO_31) - TWO_31 }

  /** StartingBlockCmp: the difference of the starts, cut to an int. */
  function StartingBlockCmp(a: Entry, b: Entry): int {
    if IsDeleted(a) then 1
    else if IsDeleted(b) then -1
    else Int32(a.start - b.start)
  }

  /** The cut does no harm: on a disk of fewer than 2^31 blocks the comparison orders files
      by their starts. */
  lemma CmpOrders(a: Entry, b: Entry)
    requires IsFile(a) && IsFile(b) && a.start < TWO_31 && b.start < TWO_31
    ensures StartingBlockCmp(a, b) <= 0 <==> a.start <= b.start
  {}

  function Insert(e: Entry, s: seq<Entry>): (r: seq<Entry>)
    ensures |r| == |s| + 1
    ensures forall x :: x in r <==> x == e || x in s
  {
    if s == [] || StartingBlockCmp(e, s[0]) <= 0 then [e] + s
    else
      var r := Insert(e, s[1..]);
      assert s == [s[0]] + s[1..];
      [s[0]] + r
  }

  /** An order such as qsort produces with StartingBlockCmp. */
  function Sorted(s: seq<Entry>): (r: seq<Entry>)
    ensures |r| == |s|
    ensures forall x :: x in r <==> x in s
  {
    if s == [] then []
    else
      assert s == [s[0]] + s[1..];
      Insert(s[0], Sorted(s[1..]))
  }

  predicate Ordered(s: seq<Entry>) {
    forall i, j :: 0 <= i < j < |s| ==> s[i].start <= s[j].start
  }

  lemma TailKeeps(s: seq<Entry>)
    requires Ordered(s) && AllApart(s) && s != []
    ensures Ordered(s[1..]) && AllApart(s[1..])
    ensures forall x :: x in s[1..] ==> x in s && s[0].start <= x.start && Apart(s[0], x)
  {
    assert forall i :: 0 <= i < |s| - 1 ==> s[1..][i] == s[i + 1];
  }

  lemma PrependKeeps(e: Entry, s: seq<Entry>)
    requires Ordered(s) && AllApart(s) && forall x :: x in s ==> e.start <= x.start && Apart(e, x)
    ensures Ordered([e] + s) && AllApart([e] + s)
  {
    assert forall i :: 0 <= i < |s| ==> s[i] in s;
  }

  lemma {:induction false} InsertKeeps(e: Entry, s: seq<Entry>, blocks: nat)
    requires blocks <= TWO_31 && Placed(e, blocks) && forall x :: x in s ==> Placed(x, blocks) && Apart(e, x)
    requires Ordered(s) && AllApart(s)
    ensures Ordered(Insert(e, s)) && AllApart(Insert(e, s))
  {
    hide Ordered, AllApart, StartingBlockCmp;
    if s == [] {
      PrependKeeps(e, []) by { EmptyKeeps(); }
    } else {
      assert s[0] in s;
      CmpOrders(e, s[0]);
      TailKeeps(s);
      if StartingBlockCmp(e, s[0]) <= 0 {
        assert s == [s[0]] + s[1..];
        PrependKeeps(e, s);
      } else {
        InsertKeeps(e, s[1..], blocks);
        PrependKeeps(s[0], Insert(e, s[1..]));
      }
    }
  }

  lemma EmptyKeeps()
    ensures Ordered([]) && AllApart([])
  {}

  lemma {:induction false} SortedKeeps(s: seq<Entry>, blocks: nat)
    requires blocks <= TWO_31 && (forall i :: 0 <= i < |s| ==> Placed(s[i], blocks)) && AllApart(s)
    ensures Ordered(Sorted(s)) && AllApart(Sorted(s))
    ensures forall x :: x in Sorted(s) ==> Placed(x, blocks)
  {
    if s == [] {
    } else {
      assert forall i :: 0 <= i < |s| - 1 ==> s[1..][i] == s[i + 1];
      SortedKeeps(s[1..], blocks);
      InsertKeeps(s[0], Sorted(s[1..]), blocks);
    }
  }

  /** An order that qsort may leave: it promises nothing about records that compare equal. */
  ghost predicate MayBeSorted(files: seq<Entry>, s: seq<Entry>) {
    && multiset(s) == multiset(files)
    && forall i, j :: 0 <= i < j < |s| ==> StartingBlockCmp(s[i], s[j]) <= 0
  }

  lemma {:induction false} InsertAdds(e: Entry, s: seq<Entry>)
    ensures multiset(Insert(e, s)) == multiset{e} + multiset(s)
  {
    if s == [] || StartingBlockCmp(e, s[0]) <= 0 {
    } else {
      InsertAdds(e, s[1..]);
      assert s == [s[0]] + s[1..];
    }
  }

  lemma {:induction false} SortedPermutes(s: seq<Entry>)
    ensures multiset(Sorted(s)) == multiset(s)
  {
    if s == [] {
    } else {
      SortedPermutes(s[1..]);
      InsertAdds(s[0], Sorted(s[1..]));
      assert s == [s[0]] + s[1..];
    }
  }

  lemma TailCounts(s: seq<Entry>)
    requires s != []
    ensures multiset(s[1..]) == multiset(s) - multiset{s[0]}
  {
    assert s == [s[0]] + s[1..];
  }

  lemma SameSize(s: seq<Entry>, t: seq<Entry>)
    requires multiset(s) == multiset(t)
    ensures |s| == |t| && forall x :: x in s <==> x in t
  {
    assert |s| == |multiset(s)| && |t| == |multiset(t)|;
    forall x ensures x in s <==> x in t { assert x in s <==> x in multiset(s); }
  }

  lemma TailOrdered(s: seq<Entry>)
    requires Ordered(s) && s != []
    ensures Ordered(s[1..])
  {
    assert forall i :: 0 <= i < |s| - 1 ==> s[1..][i] == s[i + 1];
  }

  /** Files of their own blocks have one order by their starts. */
  lemma {:induction false} OneOrder(s: seq<Entry>, t: seq<Entry>, blocks: nat)
    requires multiset(s) == multiset(t) && Ordered(s) && Ordered(t) && AllApart(s)
    requires forall x :: x in s ==> Placed(x, blocks)
    ensures s == t
  {
    hide Ordered, AllApart, Apart, Placed;
    SameSize(s, t);
    if s == [] {
    } else {
      SameLowest(s, t, blocks);
      TailCounts(s);
      TailCounts(t);
      TailKeeps(s);
      TailOrdered(t);
      OneOrder(s[1..], t[1..], blocks);
      assert s == [s[0]] + s[1..] && t == [t[0]] + t[1..];
    }
  }

  lemma StartsRise(s: seq<Entry>, j: nat, blocks: nat)
    requires Ordered(s) && AllApart(s) && (forall x :: x in s ==> Placed(x, blocks)) && 0 < j < |s|
    ensures s[0].start < s[j].start
  {
    assert Apart(s[0], s[j]) && s[0] in s && s[j] in s;
  }

  lemma SameLowest(s: seq<Entry>, t: seq<Entry>, blocks: nat)
    requires multiset(s) == multiset(t) && Ordered(s) && Ordered(t) && AllApart(s) && s != [] && t != []
    requires forall x :: x in s ==> Placed(x, blocks)
    ensures s[0] == t[0]
  {
    SameSize(s, t);
    assert t[0] in t && s[0] in s;
    var j: nat :| j < |s| && s[j] == t[0];
    var i: nat :| i < |t| && t[i] == s[0];
    assert t[0].start <= t[i].start && s[0].start <= s[j].start;
    if j > 0 { StartsRise(s, j, blocks); }
  }

  /** For files on such a disk the comparison is that of the starts. */
  lemma OrderedIsSorted(s: seq<Entry>)
    requires forall x :: x in s ==> IsFile(x) && x.start < TWO_31
    ensures Ordered(s) <==> forall i, j :: 0 <= i < j < |s| ==> StartingBlockCmp(s[i], s[j]) <= 0
  {
    forall i, j | 0 <= i < j < |s| ensures StartingBlockCmp(s[i], s[j]) <= 0 <==> s[i].start <= s[j].start {
      assert s[i] in s && s[j] in s;
      CmpOrders(s[i], s[j]);
    }
  }

  /** On files of their own blocks qsort has no choice. */
  lemma OnlyOrder(files: seq<Entry>, blocks: nat, s: seq<Entry>)
    requires blocks <= TWO_31 && (forall i :: 0 <= i < |files| ==> Placed(files[i], blocks)) && AllApart(files)
    ensures MayBeSorted(files, s) <==> s == Sorted(files)
  {
    hide Ordered, AllApart, Sorted, StartingBlockCmp;
    SortedKeeps(files, blocks);
    SortedPermutes(files);
    OrderedIsSorted(Sorted(files));
    if MayBeSorted(files, s) {
      SameSize(s, files);
      OrderedIsSorted(s);
      OneOrder(Sorted(files), s, blocks);
    }
  }

  // ---------------------------------------------------------------- first fit

  /** Unsigned subtraction of 64 bits. */
  function Minus(x: int, y: int): nat { (x - y) % TWO_64 }

  /** The scan over the sorted records: the gap in front of each, then the one at the end.
      0 when none is large enough. */
  function FirstFit(sorted: seq<Entry>, prevEnd: nat, last: int, need: nat): nat {
    var thisStart := if sorted == [] || IsDeleted(sorted[0]) then last else sorted[0].start;
    if Minus(thisStart, prevEnd) >= need then prevEnd
    else if sorted == [] then 0
    else FirstFit(sorted[1..], sorted[0].start + sorted[0].reserved, last, need)
  }

  /** need blocks from at on are free, and neither the first block nor the last. */
  predicate Fits(files: seq<Entry>, at: nat, need: nat, blocks: nat) {
    1 <= at && at + need < blocks && forall e :: e in files ==> at + need <= e.start || e.start + e.reserved <= at
  }

  /** What the scan knows when prevEnd is the end of the last record it passed. */
  ghost predicate Scanning(files: seq<Entry>, sorted: seq<Entry>, prevEnd: nat, blocks: nat, need: nat) {
    && 0 < need && 1 <= prevEnd < blocks <= TWO_31
    && (forall e :: e in sorted ==> e in files && Placed(e, blocks) && prevEnd <= e.start)
    && Ordered(sorted) && AllApart(sorted)
    && (forall e :: e in files ==> e in sorted || e.start + e.reserved <= prevEnd)
    && forall at :: 0 <= at < prevEnd ==> !Fits(files, at, need, blocks)
  }

  lemma GapFits(files: seq<Entry>, sorted: seq<Entry>, prevEnd: nat, blocks: nat, need: nat)
    requires Scanning(files, sorted, prevEnd, blocks, need)
    requires prevEnd + need <= if sorted == [] then blocks - 1 else sorted[0].start
    ensures Fits(files, prevEnd, need, blocks)
  {
    if sorted != [] {
      assert sorted[0] in sorted;
    }
    forall e | e in files ensures prevEnd + need <= e.start || e.start + e.reserved <= prevEnd {
      if e in sorted {
        var i :| 0 <= i < |sorted| && sorted[i] == e;
        assert sorted[0].start <= e.start;
      }
    }
  }

  lemma ScanStep(files: seq<Entry>, sorted: seq<Entry>, prevEnd: nat, blocks: nat, need: nat)
    requires Scanning(files, sorted, prevEnd, blocks, need) && sorted != [] && sorted[0].start < prevEnd + need
    ensures Scanning(files, sorted[1..], sorted[0].start + sorted[0].reserved, blocks, need)
  {
    hide Ordered, AllApart;
    var e, rest := sorted[0], sorted[1..];
    TailKeeps(sorted);
    assert e in sorted && sorted == [e] + rest;
    forall at | 0 <= at < e.start + e.reserved ensures !Fits(files, at, need, blocks) {
      assert e in files;
    }
    forall x | x in rest ensures e.start + e.reserved <= x.start {
      assert x in sorted && Apart(e, x) && Placed(x, blocks);
    }
  }

  lemma MinusIs(x: int, y: nat)
    requires y <= x < TWO_64
    ensures Minus(x, y) == x - y
  {}

  lemma ScanFacts(files: seq<Entry>, sorted: seq<Entry>, prevEnd: nat, blocks: nat, need: nat)
    requires Scanning(files, sorted, prevEnd, blocks, need)
    ensures 0 < need && 1 <= prevEnd < blocks <= TWO_31
    ensures sorted != [] ==> IsFile(sorted[0]) && prevEnd <= sorted[0].start < blocks
    ensures forall at: nat :: Fits(files, at, need, blocks) ==> prevEnd <= at && at + need < blocks
  {
    if sorted != [] {
      assert sorted[0] in sorted;
    }
  }

  /** The scan finds the lowest place of all, and fails only where there is none. */
  lemma {:induction false} ScanIsLowest(files: seq<Entry>, sorted: seq<Entry>, prevEnd: nat, blocks: nat, need: nat)
    requires Scanning(files, sorted, prevEnd, blocks, need)
    ensures var r := FirstFit(sorted, prevEnd, blocks - 1, need);
      && (r != 0 ==> Fits(files, r, need, blocks))
      && (forall at :: Fits(files, at, need, blocks) ==> r != 0 && r <= at)
    decreases |sorted|
  {
    hide Minus, Scanning, Fits;
    ScanFacts(files, sorted, prevEnd, blocks, need);
    var thisStart := if sorted == [] then blocks - 1 else sorted[0].start;
    MinusIs(thisStart, prevEnd);
    if prevEnd + need <= thisStart {
      GapFits(files, sorted, prevEnd, blocks, need);
    } else if sorted != [] {
      ScanStep(files, sorted, prevEnd, blocks, need);
      ScanIsLowest(files, sorted[1..], sorted[0].start + sorted[0].reserved, blocks, need);
    }
  }

  // ---------------------------------------------------------------- create

  datatype Outcome = Created(slot: nat, start: nat) | NameTaken | NoRecord | NoSpace

  /** Blocks of 2 MiB for maxsize MiB, rounded up in 64 bits: enough, and none to spare. */
  function BlocksFor(maxsize: nat): (blocks: nat)
    ensures maxsize < TWO_64 - 1 ==> maxsize <= 2 * blocks < maxsize + 2
  {
    (if maxsize % 2 != 0 then (maxsize + 1) % TWO_64 else maxsize) / 2
  }

  /** The directory with a file at slot, and the end marker after it where there is room. */
  function WithFile(dir: seq<Entry>, slot: nat, name: string, start: nat, need: nat): seq<Entry>
    requires slot < |dir|
  {
    var d := dir[slot := dir[slot].(name := name, start := start, reserved := need, fileSize := 0)];
    if slot + 1 < |d| then d[slot + 1 := d[slot + 1].(name := "")] else d
  }

  /** create, on a directory without deleted records whose files qsort has put in this order. */
  function CreateIn(dir: seq<Entry>, blocks: nat, name: string, need: nat, sorted: seq<Entry>): (Outcome, seq<Entry>) {
    var n := Used(dir);
    if Taken(dir, name) then (NameTaken, dir)
    else if n == |dir| then (NoRecord, dir)
    else
      var start := FirstFit(sorted, 1, blocks - 1, need);
      if start == 0 then (NoSpace, dir) else (Outcome.Created(n, start), WithFile(dir, n, name, start, need))
  }

  /** create with the order of Sorted, the only one there is on a sound directory. */
  function Create(dir: seq<Entry>, blocks: nat, name: string, need: nat): (Outcome, seq<Entry>) {
    CreateIn(dir, blocks, name, need, Sorted(dir[..Used(dir)]))
  }

  lemma FoundLowest(dir: seq<Entry>, blocks: nat, need: nat)
    requires Sound(dir, blocks) && need > 0
    ensures var files := dir[..Used(dir)];
      var r := FirstFit(Sorted(files), 1, blocks - 1, need);
      && (r != 0 ==> Fits(files, r, need, blocks))
      && (forall at :: Fits(files, at, need, blocks) ==> r != 0 && r <= at)
  {
    hide FirstFit;
    var files := dir[..Used(dir)];
    SortedKeeps(files, blocks);
    forall e | e in Sorted(files) ensures 1 <= e.start {}
    ScanIsLowest(files, Sorted(files), 1, blocks, need);
  }

  /** The whole of create: which request is refused and why, where the file goes, and that
      the directory stays sound. */
  lemma CreateIsLowestFit(dir: seq<Entry>, blocks: nat, name: string, need: nat)
    requires Sound(dir, blocks) && IsName(name) && need > 0
    ensures var (o, dir') := Create(dir, blocks, name, need);
      var files := dir[..Used(dir)];
      && (o == NameTaken <==> exists i :: 0 <= i < Used(dir) && dir[i].name == name)
      && (o == NoRecord <==> o != NameTaken && Used(dir) == RECORDS)
      && (o == NoSpace <==> o != NameTaken && o != NoRecord && !exists at :: Fits(files, at, need, blocks))
      && (!o.Created? ==> dir' == dir)
      && (o.Created? ==>
          && o.slot == Used(dir) < RECORDS && Fits(files, o.start, need, blocks)
          && (forall at :: 0 <= at < o.start ==> !Fits(files, at, need, blocks))
          && Used(dir') == Used(dir) + 1 && dir'[..Used(dir)] == files
          && dir'[o.slot] == Entry(name, o.start, need, 0, dir[o.slot].unused)
          && (forall i :: o.slot + 1 < i < RECORDS ==> dir'[i] == dir[i]))
      && Sound(dir', blocks)
  {
    hide FirstFit, Sorted;
    var (o, dir') := Create(dir, blocks, name, need);
    var n := Used(dir);
    FoundLowest(dir, blocks, need);
    if o.Created? {
      CreatedSound(dir, blocks, name, need, o.start);
    }
  }

  /** A file added behind the others is the last record before the end marker. */
  lemma Added(dir: seq<Entry>, name: string, start: nat, need: nat)
    requires |dir| == RECORDS && IsName(name) && Used(dir) < RECORDS
    ensures var n := Used(dir);
      var dir' := WithFile(dir, n, name, start, need);
      && |dir'| == RECORDS && Used(dir') == n + 1 && dir'[n] == Entry(name, start, need, 0, dir[n].unused)
      && dir'[..n] == dir[..n] && dir'[..n + 1] == dir[..n] + [dir'[n]]
  {
    hide Used;
    var n := Used(dir);
    UsedIs(WithFile(dir, n, name, start, need), n + 1);
  }

  lemma CreatedSound(dir: seq<Entry>, blocks: nat, name: string, need: nat, start: nat)
    requires Sound(dir, blocks) && IsName(name) && need > 0 && Used(dir) < RECORDS && !Taken(dir, name)
    requires Fits(dir[..Used(dir)], start, need, blocks)
    ensures var dir' := WithFile(dir, Used(dir), name, start, need);
      && Sound(dir', blocks) && Used(dir') == Used(dir) + 1 && dir'[..Used(dir)] == dir[..Used(dir)]
  {
    hide Used, FirstFit, Apart, WithFile;
    var n, dir' := Used(dir), WithFile(dir, Used(dir), name, start, need);
    Added(dir, name, start, need);
    forall i | 0 <= i < n ensures Apart(dir[..n][i], dir'[n]) && dir[i].name != name && dir'[i] == dir[i] {
      assert dir'[i] == dir'[..n][i];
      assert dir[..n][i] in dir[..n];
      FitsApart(dir[..n], dir[..n][i], dir'[n], blocks);
    }
  }

  lemma FitsApart(files: seq<Entry>, e: Entry, added: Entry, blocks: nat)
    requires e in files && Fits(files, added.start, added.reserved, blocks)
    ensures Apart(e, added)
  {}

  // ---------------------------------------------------------------- runs

  /** One request, with the files in some order that qsort may leave. */
  ghost predicate Next(dir: seq<Entry>, blocks: nat, request: (string, nat), dir': seq<Entry>) {
    exists order ::
      MayBeSorted(dir[..Used(dir)], order) && dir' == CreateIn(dir, blocks, request.0, BlocksFor(request.1), order).1
  }

  /** A series of requests, from a formatted directory. */
  ghost predicate IsRun(dirs: seq<seq<Entry>>, blocks: nat, requests: seq<(string, nat)>) {
    && |dirs| == |requests| + 1 && Formatted(dirs[0])
    && forall i :: 0 <= i < |requests| ==> Next(dirs[i], blocks, requests[i], dirs[i + 1])
  }

  /** Sizes from smallest on, as far as the 32 bits of main go. */
  predicate Requests(requests: seq<(string, nat)>, smallest: nat) {
    forall i :: 0 <= i < |requests| ==> IsName(requests[i].0) && smallest <= requests[i].1 < 2 * TWO_31
  }

  predicate Formatted(dir: seq<Entry>) { |dir| == RECORDS && IsEnd(dir[0]) }

  /** A file of at least one block is created in the same way whatever qsort does. */
  lemma NextSound(dir: seq<Entry>, blocks: nat, request: (string, nat), dir': seq<Entry>)
    requires Sound(dir, blocks) && IsName(request.0) && BlocksFor(request.1) > 0
    requires Next(dir, blocks, request, dir')
    ensures Sound(dir', blocks)
  {
    hide Used, CreateIn, MayBeSorted, Sorted, BlocksFor;
    var files := dir[..Used(dir)];
    var order :| MayBeSorted(files, order) && dir' == CreateIn(dir, blocks, request.0, BlocksFor(request.1), order).1;
    OnlyOrder(files, blocks, order);
    CreateIsLowestFit(dir, blocks, request.0, BlocksFor(request.1));
  }

  /** Whatever is created on a formatted disk, with the sizes of 1 MiB or more that main lets
      through, extents never overlap and names never repeat. */
  lemma {:induction false} ReachableDirectories(
      dirs: seq<seq<Entry>>, blocks: nat, requests: seq<(string, nat)>, i: nat)
    requires IsRun(dirs, blocks, requests) && 3 <= blocks < TWO_31 && Requests(requests, 1) && i <= |requests|
    ensures Sound(dirs[i], blocks)
    decreases i
  {
    hide Next, Sound;
    if i == 0 {
      FormattedSound(dirs[0], blocks);
    } else {
      ReachableDirectories(dirs, blocks, requests, i - 1);
      assert Next(dirs[i - 1], blocks, requests[i - 1], dirs[i - 1 + 1]);
      NextSound(dirs[i - 1], blocks, requests[i - 1], dirs[i]);
    }
  }

  lemma FormattedSound(dir: seq<Entry>, blocks: nat)
    requires Formatted(dir) && 3 <= blocks < TWO_31
    ensures Sound(dir, blocks)
  {
    UsedIs(dir, 0);
  }

  // ---------------------------------------------------------------- empty requests

  /** Only sizes 0 and 2^64 - 1 ask for no block. */
  lemma EmptyRequests(maxsize: nat)
    requires maxsize < TWO_64
    ensures BlocksFor(maxsize) == 0 <==> maxsize == 0 || maxsize == TWO_64 - 1
  {}

  /** No block belongs to two files. */
  predicate FilesApart(dir: seq<Entry>) {
    forall i, j :: 0 <= i < j < Used(dir) && dir[i].reserved > 0 && dir[j].reserved > 0 ==> Apart(dir[i], dir[j])
  }

  /** Over every series of requests, however qsort orders files that compare equal. */
  ghost predicate AlwaysApart(dir: seq<Entry>, blocks: nat, smallest: nat) {
    forall dirs, requests :: IsRun(dirs, blocks, requests) && dirs[0] == dir && Requests(requests, smallest) ==>
      FilesApart(dirs[|requests|])
  }

  /** A create whose outcome is known, the files being in order as they stand. */
  lemma Creates(dir: seq<Entry>, files: seq<Entry>, blocks: nat, name: string, maxsize: nat, start: nat)
    returns (d: seq<Entry>, f: Entry)
    requires |dir| == RECORDS && IsName(name) && Used(dir) < RECORDS && dir[..Used(dir)] == files
    requires (forall x :: x in files ==> x.name != name) && MayBeSorted(files, files)
    requires start > 0 && FirstFit(files, 1, blocks - 1, BlocksFor(maxsize)) == start
    ensures Next(dir, blocks, (name, maxsize), d)
    ensures |d| == RECORDS && Used(d) == Used(dir) + 1 && d[..Used(d)] == files + [f]
    ensures f.name == name && f.start == start && f.reserved == BlocksFor(maxsize) && IsFile(f)
  {
    hide Used, FirstFit, WithFile, BlocksFor, MayBeSorted;
    var need := BlocksFor(maxsize);
    Added(dir, name, start, need);
    forall i | 0 <= i < Used(dir) ensures dir[i].name != name { assert dir[i] == files[i]; }
    d := CreateIn(dir, blocks, name, need, files).1;
    f := d[Used(dir)];
    assert Next(dir, blocks, (name, maxsize), d);
  }

  /** qsort may leave files as they stand if their starts do not fall. */
  lemma MayStay(files: seq<Entry>)
    requires Ordered(files) && forall x :: x in files ==> IsFile(x) && x.start < TWO_31
    ensures MayBeSorted(files, files)
  {
    OrderedIsSorted(files);
  }

  lemma NoneStay()
    ensures MayBeSorted([], [])
  {}

  lemma OneStays(a: Entry)
    requires IsFile(a) && a.start < TWO_31
    ensures MayBeSorted([a], [a])
  {
    MayStay([a]);
  }

  lemma TwoStay(a: Entry, b: Entry)
    requires a.start <= b.start < TWO_31 && IsFile(a) && IsFile(b)
    ensures MayBeSorted([a, b], [a, b])
  {
    MayStay([a, b]);
  }

  lemma ThreeStay(a: Entry, b: Entry, c: Entry)
    requires a.start <= b.start <= c.start < TWO_31 && IsFile(a) && IsFile(b) && IsFile(c)
    ensures MayBeSorted([a, b, c], [a, b, c])
  {
    MayStay([a, b, c]);
  }

  /** Behind a file in block 1 and an empty one that starts there too, the scan sees a gap
      below zero and hands out block 2, whoever has it. */
  lemma GapBelowZero(files: seq<Entry>, last: int)
    requires |files| >= 2 && IsFile(files[0]) && IsFile(files[1])
    requires files[0].start == files[0].reserved == files[1].start == 1
    ensures FirstFit(files, 1, last, 1) == 2
  {
    assert files[1..][0] == files[1];
    assert FirstFit(files[1..], 2, last, 1) == 2;
  }

  /** On a formatted disk: a file of one block, and an empty one. */
  lemma EmptyBesideFile(dir: seq<Entry>, blocks: nat) returns (d1: seq<Entry>, d2: seq<Entry>, a: Entry, e: Entry)
    requires Formatted(dir) && 3 <= blocks < TWO_31
    ensures Next(dir, blocks, ("a", 2), d1) && Next(d1, blocks, ("e", 0), d2)
    ensures |d2| == RECORDS && Used(d2) == 2 && d2[..2] == [a, e] && a.name == "a" && e.name == "e"
    ensures IsFile(a) && IsFile(e) && a.start == a.reserved == e.start == 1
  {
    hide Used, FirstFit, Next, MayBeSorted, IsFile;
    UsedIs(dir, 0);
    EmptyDiskFits(blocks);
    NoneStay();
    d1, a := Creates(dir, [], blocks, "a", 2, 1);
    OneStays(a);
    FirstGapFits(a, blocks - 1);
    d2, e := Creates(d1, [a], blocks, "e", 0, 1);
  }

  /** Four requests of which one is empty give block 2 away twice, on every disk, if qsort
      leaves the first file before the empty one. */
  lemma EmptyFileOverlaps(dir: seq<Entry>, blocks: nat) returns (dirs: seq<seq<Entry>>, requests: seq<(string, nat)>)
    requires Formatted(dir) && 3 <= blocks < TWO_31
    ensures IsRun(dirs, blocks, requests) && dirs[0] == dir && |requests| == 4
    ensures Requests(requests, 0) && !FilesApart(dirs[4])
  {
    hide Used, FirstFit, Next, MayBeSorted, FilesApart, IsFile;
    var d1, d2, a, e := EmptyBesideFile(dir, blocks);
    TwoStay(a, e);
    GapBelowZero([a, e], blocks - 1);
    var d3, x := Creates(d2, [a, e], blocks, "x", 2, 2);
    ThreeStay(a, e, x);
    GapBelowZero([a, e, x], blocks - 1);
    var d4, y := Creates(d3, [a, e, x], blocks, "y", 2, 2);
    LastTwoOverlap(d4, a, e, x, y);
    dirs, requests := [dir, d1, d2, d3, d4], [("a", 2), ("e", 0), ("x", 2), ("y", 2)];
  }

  lemma LastTwoOverlap(d: seq<Entry>, a: Entry, e: Entry, x: Entry, y: Entry)
    requires d[..Used(d)] == [a, e, x] + [y] && x.start == y.start && x.reserved > 0 && y.reserved > 0
    ensures !FilesApart(d)
  {
    hide Used;
    assert Used(d) == |d[..Used(d)]| == 4;
    assert d[2] == d[..Used(d)][2] == x && d[3] == d[..Used(d)][3] == y;
  }

  lemma EmptyDiskFits(blocks: nat)
    requires 3 <= blocks < TWO_31
    ensures FirstFit([], 1, blocks - 1, 1) == 1
  {}

  lemma FirstGapFits(a: Entry, last: int)
    requires IsFile(a) && a.start == 1
    ensures FirstFit([a], 1, last, 0) == 1
  {}

  /** On every formatted disk: files never share a block, whatever is created and however qsort
      settles ties, if and only if empty requests are kept out. create does not do so; main does. */
  lemma ApartIffNonEmpty(dir: seq<Entry>, blocks: nat, smallest: nat)
    requires Formatted(dir) && 3 <= blocks < TWO_31
    ensures AlwaysApart(dir, blocks, smallest) <==> smallest >= 1
  {
    hide Next, FilesApart;
    if smallest >= 1 {
      forall dirs, requests | IsRun(dirs, blocks, requests) && dirs[0] == dir && Requests(requests, smallest)
        ensures |dirs| == |requests| + 1 && FilesApart(dirs[|requests|])
      {
        RunLength(dirs, blocks, requests);
        ReachableDirectories(dirs, blocks, requests, |requests|);
        SoundFilesApart(dirs[|requests|], blocks);
      }
    } else {
      var dirs, requests := EmptyFileOverlaps(dir, blocks);
    }
  }

  lemma RunLength(dirs: seq<seq<Entry>>, blocks: nat, requests: seq<(string, nat)>)
    requires IsRun(dirs, blocks, requests)
    ensures |dirs| == |requests| + 1
  {}

  lemma SoundFilesApart(dir: seq<Entry>, blocks: nat)
    requires Sound(dir, blocks)
    ensures FilesApart(dir)
  {
    var files := dir[..Used(dir)];
    forall i, j | 0 <= i < j < Used(dir) ensures Apart(dir[i], dir[j]) {
      assert Apart(files[i], files[j]);
    }
  }
}
