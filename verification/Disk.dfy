/** The filesystem a tailer sees: file contents by identity, and which file the path names.
    Anything may happen to it between two system calls; `calm` records whether all that
    happened so far was appending, one-way renaming and creation. */
module Disk {
  import opened Options
  import opened Lines

  type FileId = nat

  /** `retired` holds the files that were at the path once and left it. */
  datatype Disk = Disk(files: map<FileId, Bytes>, path: Option<FileId>, retired: set<FileId>)

  predicate Prefix(a: Bytes, b: Bytes) { |a| <= |b| && a == b[..|a|] }

  predicate Grows(a: map<FileId, Bytes>, b: map<FileId, Bytes>) {
    forall f :: f in a ==> f in b && Prefix(a[f], b[f])
  }

  /** Files only grow, and a file that left the path never returns to it. */
  predicate Evolves(a: Disk, b: Disk) {
    && Grows(a.files, b.files)
    && a.retired <= b.retired
    && (a.path.Some? && b.path != a.path ==> a.path.value in b.retired)
    && (b.path.Some? ==> b.path.value !in b.retired)
  }

  lemma EvolvesTransitive(a: Disk, b: Disk, c: Disk)
    requires Evolves(a, b) && Evolves(b, c)
    ensures Evolves(a, c)
  {
  }

  lemma SliceOfPrefix(a: Bytes, b: Bytes, lo: nat, hi: nat)
    requires Prefix(a, b) && lo <= hi <= |a|
    ensures a[lo..hi] == b[lo..hi]
  {
  }

  datatype ReadErr = NoErr | Eof | Failed

  class Env {
    var disk: Disk
    ghost var calm: bool
    /** How many system calls returned an error so far, or found the context cancelled. */
    ghost var faults: nat

    ghost predicate Ok()
      reads this
    {
      && (disk.path.Some? ==> disk.path.value in disk.files)
      && (calm && disk.path.Some? ==> disk.path.value !in disk.retired)
    }

    constructor (disk: Disk)
      ensures this.disk == disk && calm && faults == 0
    {
      this.disk, calm, faults := disk, true, 0;
    }

    /** The disk went from `d` to where it is now, calmly unless the flag fell. */
    ghost predicate Since(d: Disk)
      reads this
    {
      d.files.Keys <= disk.files.Keys && (calm ==> Evolves(d, disk))
    }

    /** What every call keeps: the disk went from where it was to where it is, calmly unless the
        flag fell, and no fault is forgotten. */
    twostate predicate Kept()
      reads this
    {
      && Ok() && Since(old(disk)) && (calm ==> old(calm)) && faults >= old(faults)
      && forall d {:trigger Since(d)} :: old(Since(d)) ==> Since(d)
    }

    /** Everybody else, between two of our system calls. */
    method Interfere()
      requires Ok()
      modifies `disk, `calm
      ensures Kept()
    {
      ghost var before := disk;
      var after: Disk :|
        disk.files.Keys <= after.files.Keys && (after.path.Some? ==> after.path.value in after.files);
      disk := after;
      calm := calm && Evolves(before, disk);
      forall d: Disk | old(Since(d))
        ensures Since(d)
      {
        if calm { EvolvesTransitive(d, before, disk); }
      }
    }

    /** ctx.Err. */
    method Cancelled() returns (yes: bool)
      modifies `faults
      ensures faults >= old(faults) && (yes ==> faults > old(faults))
    {
      yes := *;
      faults := if yes then faults + 1 else faults;
    }

    /** os.Stat on the path. */
    method StatPath() returns (info: Option<(FileId, nat)>)
      requires Ok()
      modifies this
      ensures Kept()
      ensures info == None ==> faults > old(faults)
      ensures info.Some? ==> disk.path == Some(info.value.0) && info.value.1 == |disk.files[info.value.0]|
    {
      Interfere();
      var fails: bool := *;
      if fails || disk.path.None? {
        faults := faults + 1;
        return None;
      }
      info := Some((disk.path.value, |disk.files[disk.path.value]|));
    }

    /** Stat on an open handle. */
    method StatFile(f: FileId) returns (size: Option<nat>)
      requires Ok() && f in disk.files
      modifies this
      ensures Kept()
      ensures size == None ==> faults > old(faults)
      ensures size.Some? ==> f in disk.files && size.value == |disk.files[f]|
    {
      Interfere();
      var fails: bool := *;
      size := if fails then None else Some(|disk.files[f]|);
      faults := if fails then faults + 1 else faults;
    }

    /** Opening the path for reading. */
    method Open() returns (f: Option<FileId>)
      requires Ok()
      modifies this
      ensures Kept()
      ensures f == None ==> faults > old(faults)
      ensures f.Some? ==> f == disk.path && f.value in disk.files
    {
      Interfere();
      var fails: bool := *;
      f := if fails then None else disk.path;
      faults := if f == None then faults + 1 else faults;
    }

    /** Read at the handle's position: any number of bytes up to `want`, end of file only where
        the file ends. */
    method Read(f: FileId, position: nat, want: nat) returns (data: Bytes, err: ReadErr)
      requires Ok() && f in disk.files && want > 0
      modifies this
      ensures Kept()
      ensures f in disk.files && |data| <= want
      ensures data != [] ==> position + |data| <= |disk.files[f]| && data == disk.files[f][position..position + |data|]
      ensures err == Failed ==> faults > old(faults)
      ensures err == Eof ==> position + |data| >= |disk.files[f]|
      ensures err == NoErr ==> data != []
    {
      Interfere();
      var content := disk.files[f];
      if position >= |content| {
        return [], Eof;
      }
      var n: nat :| n <= want && position + n <= |content|;
      data := content[position..position + n];
      var atEnd, fails: bool := *, *;
      err := if n == 0 || fails then Failed else if atEnd && position + n == |content| then Eof else NoErr;
      faults := if err == Failed then faults + 1 else faults;
    }

    /** ReadAt filling a buffer; what lies past the end of the file stays zero. */
    method ReadAt(f: FileId, position: nat, length: nat) returns (buffer: Bytes, count: nat, err: ReadErr)
      requires Ok() && f in disk.files
      modifies this
      ensures Kept()
      ensures err == Failed ==> faults > old(faults)
      ensures f in disk.files && |buffer| == length && count <= length
      ensures err != Failed && position + length <= |disk.files[f]| ==>
                count == length && buffer == disk.files[f][position..position + length]
      ensures err != Failed && position <= |disk.files[f]| ==>
                position + count <= |disk.files[f]| && buffer[..count] == disk.files[f][position..position + count]
    {
      Interfere();
      var content := disk.files[f];
      var from := if position < |content| then position else |content|;
      var rest := content[from..];
      count := if |rest| < length then |rest| else length;
      buffer := rest[..count] + seq(length - count, i => 0 as byte);
      var fails: bool := *;
      err := if fails then Failed else if count < length then Eof else NoErr;
      faults := if fails then faults + 1 else faults;
    }
  }
}
