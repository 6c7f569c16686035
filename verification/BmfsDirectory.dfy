/** The directory in memory: findfile and create of Bootloader/BMFS/bmfs.c. qsort stands as
    BmfsModel.Sorted, and the disk is written by whoever calls create. */
module BmfsDirectory {
  import opened Wrappers
  import opened BmfsModel

  class Disk {
    const directory: array<Entry>
    /** In MiB. */
    const disksize: nat

    constructor (dir: seq<Entry>, disksize: nat)
      ensures directory[..] == dir && this.disksize == disksize && fresh(directory)
    {
      directory := new Entry[|dir|](i requires 0 <= i < |dir| => dir[i]);
      this.disksize := disksize;
    }

    /** findfile: the first record of that name before the end marker, deleted ones aside. */
    method FindFile(filename: string) returns (entry: Option<(Entry, nat)>)
      requires directory.Length == RECORDS
      ensures entry.Some? <==> Taken(directory[..], filename)
      ensures entry.Some? ==>
                && entry.value.1 < Used(directory[..]) && entry.value.0 == directory[entry.value.1]
                && entry.value.0.name == filename && !IsDeleted(entry.value.0)
                && forall i :: 0 <= i < entry.value.1 ==> directory[i].name != filename || IsDeleted(directory[i])
    {
      ghost var n := Used(directory[..]);
      var tint := 0;
      while tint < RECORDS
        invariant tint <= n || tint == RECORDS
        invariant forall i :: 0 <= i < tint && i < n ==> directory[i].name != filename || IsDeleted(directory[i])
      {
        var e := directory[tint];
        if IsEnd(e) {
          tint := RECORDS;
        } else if IsDeleted(e) {
          tint := tint + 1;
        } else {
          if filename == e.name {
            return Some((e, tint));
          }
          tint := tint + 1;
        }
      }
      return None;
    }

    /** The first pass over the copy: how many records come before the end marker, 0 if there
        is no marker, and the first record that is deleted or ends the directory. */
    method CountEntries() returns (used: nat, free: Option<nat>)
      requires directory.Length == RECORDS
      ensures used == if Used(directory[..]) < RECORDS then Used(directory[..]) else 0
      ensures free == None ==>
                Used(directory[..]) == RECORDS && forall i :: 0 <= i < RECORDS ==> !IsDeleted(directory[i])
      ensures free.Some? ==>
                && free.value < RECORDS && free.value <= Used(directory[..])
                && (free.value < Used(directory[..]) ==> IsDeleted(directory[free.value]))
                && forall i :: 0 <= i < free.value ==> !IsDeleted(directory[i])
    {
      ghost var n := Used(directory[..]);
      used, free := 0, None;
      var tint: nat := 0;
      while tint < RECORDS
        invariant tint <= n
        invariant free == None ==> forall i :: 0 <= i < tint ==> !IsDeleted(directory[i])
        invariant free.Some? ==> free.value < tint && IsDeleted(directory[free.value])
        invariant free.Some? ==> forall i :: 0 <= i < free.value ==> !IsDeleted(directory[i])
      {
        if IsEnd(directory[tint]) {
          used := tint;
          if free == None {
            free := Some(tint);
          }
          break;
        } else if IsDeleted(directory[tint]) {
          if free == None {
            free := Some(tint);
          }
        }
        tint := tint + 1;
      }
    }

    /** The second pass: the first gap that is large enough, 0 if there is none. */
    method FindSpace(copy: seq<Entry>, last: int, need: nat) returns (newStart: nat)
      ensures newStart == FirstFit(copy, 1, last, need)
    {
      newStart := 0;
      var prevEnd: nat, tint: nat := 1, 0;
      while tint < |copy| + 1
        invariant tint <= |copy| + 1 && newStart == 0
        invariant FirstFit(copy, 1, last, need) ==
                  if tint <= |copy| then FirstFit(copy[tint..], prevEnd, last, need) else 0
      {
        var thisStart := if tint == |copy| || IsDeleted(copy[tint]) then last else copy[tint].start;
        if Minus(thisStart, prevEnd) >= need {
          newStart := prevEnd;
          assert newStart == FirstFit(copy, 1, last, need);
          break;
        }
        if tint < |copy| {
          assert copy[tint..][1..] == copy[tint + 1..];
          prevEnd := copy[tint].start + copy[tint].reserved;
        }
        tint := tint + 1;
      }
    }

    method Create(filename: string, maxsize: nat) returns (o: Outcome)
      requires Sound(directory[..], disksize / 2) && IsName(filename) && maxsize < TWO_64
      modifies directory
      ensures (o, directory[..]) == BmfsModel.Create(old(directory[..]), disksize / 2, filename, BlocksFor(maxsize))
      ensures BlocksFor(maxsize) > 0 ==> Sound(directory[..], disksize / 2)
      // The file has room for maxsize MiB and no block to spare.
      ensures o.Created? && maxsize < TWO_64 - 1 ==>
                maxsize <= 2 * directory[o.slot].reserved < maxsize + 2 && directory[o.slot].name == filename
    {
      hide Used, Sorted, FirstFit, Fits;
      var size := if maxsize % 2 != 0 then (maxsize + 1) % TWO_64 else maxsize;
      var found := FindFile(filename);
      if found.Some? {
        return NameTaken;
      }
      ghost var dir := directory[..];
      if BlocksFor(maxsize) > 0 {
        CreateIsLowestFit(dir, disksize / 2, filename, BlocksFor(maxsize));
      }
      var need, blocks := size / 2, disksize / 2;
      var used, free := CountEntries();
      if free == None {
        return NoRecord;
      }
      var copy := Sorted(directory[..used]);
      var start := FindSpace(copy, blocks - 1, need);
      if start == 0 {
        return NoSpace;
      }
      directory[free.value] :=
        directory[free.value].(start := start, reserved := need, fileSize := 0, name := filename);
      if free.value == used && used + 1 < RECORDS {
        directory[used + 1] := directory[used + 1].(name := "");
      }
      assert directory[..] == WithFile(dir, used, filename, start, need);
      return Outcome.Created(free.value, start);
    }
  }
}
