/** The file layer on its state: the descriptor table, the one-sector cache and the disk. Each method is a call that
    nobody interferes with; it ends in the state its CPU's steps in `FileMachine` lead to. */
module Files {
  import opened Common
  import opened DiskImage
  import opened FileMachine
  import opened FileCalls

  class Vfs {
    const fds: array<Fd>
    var disk: Disk
    var cache: Cache
    var start: nat

    /** Offsets lie inside the files, and the cache holds the sector it names. */
    ghost predicate Valid()
      reads this, fds
    {
      && fds.Length == MAX_FDS && DiskOk(disk) && |cache.data| == SECTOR
      && (cache.valid ==> cache.data == disk[cache.lba])
      && forall i :: 0 <= i < MAX_FDS && fds[i].inUse ==> fds[i].offset <= fds[i].size < WORD
    }

    /** The machine's state, with the CPUs where `pcs` says. */
    ghost function Now(pcs: map<nat, Pc>): Sys
      reads this, fds
    {
      Sys(disk, cache, fds[..], pcs)
    }

    /** `ata_read_sector`. */
    method ReadSector(lba: nat) returns (data: seq<Byte>)
      requires DiskOk(disk)
      ensures data == disk[lba]
    {
      data := disk[lba];
    }

    /** `cached_read_sector`. */
    method CachedReadSector(lba: nat) returns (data: seq<Byte>)
      requires Valid()
      modifies this`cache
      ensures Valid() && data == disk[lba]
      ensures forall pcs: map<nat, Pc>, c :: c in pcs && pcs[c] == Idle ==>
        Alone(old(Now(pcs)), Now(pcs[c := Found(lba, data)]), c)
    {
      LooksAlone(disk, cache, fds[..], lba);
      if cache.valid && cache.lba == lba {
        return cache.data;
      }
      data := ReadSector(lba);
      cache := Cache(lba, data, true);
    }

    /** `cached_write_sector`. */
    method CachedWriteSector(lba: nat, data: seq<Byte>)
      requires Valid() && |data| == SECTOR
      modifies this`cache, this`disk
      ensures Valid() && disk == old(disk)[lba := data] && cache == Cache(lba, data, true)
    {
      disk := disk[lba := data];
      cache := Cache(lba, data, true);
    }

    /** `vfs_read`: exactly the next bytes of the file, as many as asked for and left. */
    method Read(fd: int, count: nat) returns (n: int, buffer: seq<Byte>)
      requires Valid()
      modifies fds
      ensures Valid()
      ensures !old(Open(fds[..], fd)) ==> n == -1 && buffer == [] && fds[..] == old(fds[..])
      ensures old(Open(fds[..], fd)) ==>
        var f := old(fds[fd]);
        n == Min(count, f.size - f.offset) && buffer == Bytes(disk, f.startLba * SECTOR + f.offset, n) &&
        fds[..] == old(fds[..])[fd := f.(offset := f.offset + n)] &&
        forall pcs: map<nat, Pc>, c :: c in pcs && pcs[c] == Idle ==>
          Alone(old(Now(pcs)), Now(pcs[c := Reading(f.startLba, f.offset, n, buffer)]), c)
    {
      hide Bytes, Alone, DiskOk;
      if fd < 0 || fd >= MAX_FDS || !fds[fd].inUse {
        return -1, [];
      }
      var f := fds[fd];
      ReadsAlone(disk, cache, fds[..], fd, count);
      buffer := [];
      if f.offset >= f.size {
        assert Bytes(disk, f.startLba * SECTOR + f.offset, 0) == [];
        assert f.(offset := f.offset + 0) == f;
        return 0, buffer;
      }
      var left := count;
      if left > f.size - f.offset {
        left := f.size - f.offset;
      }
      fds[fd] := f.(offset := f.offset + left);
      buffer := ReadBytes(f.startLba, f.offset, left);
      n := left;
    }

    /** The sector loop of `vfs_read`. */
    method ReadBytes(startLba: nat, offset: nat, count: nat) returns (buffer: seq<Byte>)
      requires DiskOk(disk)
      ensures buffer == Bytes(disk, startLba * SECTOR + offset, count)
    {
      hide Bytes, DiskOk;
      buffer := [];
      var done, at := 0, offset;
      assert buffer == Bytes(disk, startLba * SECTOR + offset, 0);
      while done < count
        invariant done <= count && at == offset + done && buffer == Bytes(disk, startLba * SECTOR + offset, done)
      {
        var lba := startLba + at / SECTOR;
        var sectorOffset := at % SECTOR;
        var toCopy := SECTOR - sectorOffset;
        if toCopy > count - done {
          toCopy := count - done;
        }
        assert (startLba * SECTOR + offset + done) / SECTOR == lba &&
          (startLba * SECTOR + offset + done) % SECTOR == sectorOffset;
        ReadStep(disk, startLba * SECTOR + offset, done, buffer, toCopy);
        SectorSize(disk, lba);
        var sector := ReadSector(lba);
        if sectorOffset == 0 && toCopy == SECTOR {
          assert sector == sector[0..SECTOR];
          buffer := buffer + sector;
        } else {
          buffer := buffer + sector[sectorOffset..sectorOffset + toCopy];
        }
        done := done + toCopy;
        at := at + toCopy;
      }
    }

    /** `vfs_write`: the bytes go to the disk at the file's position, and no other byte changes. Only if offset and
        count wrap around to something inside the file do bytes land outside it. */
    method Write(fd: int, data: seq<Byte>) returns (n: int)
      requires Valid() && |data| < WORD
      modifies fds, this`disk, this`cache
      ensures Valid()
      ensures !old(Open(fds[..], fd)) ==> n == -1 && disk == old(disk) && cache == old(cache) && fds[..] == old(fds[..])
      ensures old(Open(fds[..], fd)) ==>
        var f := old(fds[fd]);
        0 <= n == WriteCount(f, |data|) <= |data| &&
        fds[..] == old(fds[..])[fd := f.(offset := (f.offset + n) % WORD)] &&
        WroteJob(old(disk), disk, Job(f.startLba, f.offset, data[..n], 0)) &&
        forall pcs: map<nat, Pc>, c :: c in pcs && pcs[c] == Idle ==>
          Alone(old(Now(pcs)), Now(pcs[c := Writing(Job(f.startLba, f.offset, data[..n], n))]), c)
      ensures old(Open(fds[..], fd)) && !Wraps(old(fds[fd]), |data|) ==>
        var f := old(fds[fd]);
        n == Min(|data|, f.size - f.offset) && Wrote(old(disk), disk, f.startLba * SECTOR + f.offset, data[..n])
    {
      hide DiskOk, WroteJob, Wrote, Alone, Stored, CachedLast;
      if fd < 0 || fd >= MAX_FDS || !fds[fd].inUse {
        return -1;
      }
      var f := fds[fd];
      WriteCountIff(f, |data|);
      WritesAlone(disk, cache, fds[..], fd, data);
      var count := |data|;
      if (f.offset + count) % WORD > f.size {
        count := f.size - f.offset;
      }
      fds[fd] := f.(offset := (f.offset + count) % WORD);
      WriteBytes(f.startLba, f.offset, data[..count]);
      StoredBytes(old(disk), Job(f.startLba, f.offset, data[..count], 0));
      if !Wraps(f, |data|) {
        StoredSplice(old(disk), disk, f.startLba, f.offset, data[..count]);
      }
      n := count;
    }

    /** The sector loop of `vfs_write`. */
    method WriteBytes(startLba: nat, offset: nat, data: seq<Byte>)
      requires Valid() && offset < WORD
      modifies this`disk, this`cache
      ensures Valid()
      ensures DiskOk(old(disk)) && disk == Stored(old(disk), Job(startLba, offset, data, 0))
      ensures cache == CachedLast(old(disk), old(cache), Job(startLba, offset, data, 0))
    {
      hide DiskOk, Spliced, Stored, CachedLast, SectorOf, PieceOf, At32;
      assert DiskOk(disk);
      var done, at := 0, offset;
      while done < |data|
        invariant Valid() && done <= |data| && at == (offset + done) % WORD && DiskOk(old(disk)) && DiskOk(disk)
        invariant Stored(disk, Job(startLba, offset, data, done)) == Stored(old(disk), Job(startLba, offset, data, 0))
        invariant CachedLast(disk, cache, Job(startLba, offset, data, done)) ==
          CachedLast(old(disk), old(cache), Job(startLba, offset, data, 0))
      {
        ghost var job := Job(startLba, offset, data, done);
        var lba := startLba + at / SECTOR;
        var sectorOffset := at % SECTOR;
        var toWrite := SECTOR - sectorOffset;
        if toWrite > |data| - done {
          toWrite := |data| - done;
        }
        PieceIs(job, at);
        StoredNext(disk, cache, job);
        SectorSize(disk, lba);
        var sector := ReadSector(lba);
        SplicedIs(job, sector);
        sector := sector[..sectorOffset] + data[done..done + toWrite] + sector[sectorOffset + toWrite..];
        CachedWriteSector(lba, sector);
        assert DiskOk(disk);
        done := done + toWrite;
        at := (at + toWrite) % WORD;
      }
      StoredEnd(disk, cache, Job(startLba, offset, data, done));
    }

    /** `octal_to_int` on the size field of a header. */
    method OctalToInt(oct: seq<Byte>) returns (res: nat)
      requires |oct| >= 11
      ensures res == Octal(oct, 11, 0)
    {
      hide DigitOf, IsOctal;
      res := 0;
      assert oct[0..] == oct;
      for i := 0 to 11
        invariant res < WORD && Octal(oct, 11, 0) == Octal(oct[i..], 11 - i, res)
      {
        if !IsOctal(oct[i]) {
          break;
        }
        assert oct[i..][1..] == oct[i + 1..];
        res := res * 8 % WORD + DigitOf(oct[i]);
      }
    }

    /** `tar_find_file`: the first entry of the archive with the name, where its data start and how long it is. */
    method TarFindFile(name: seq<Byte>) returns (found: bool, lba: nat, size: nat)
      requires Valid()
      modifies this`cache
      ensures Valid()
      ensures var es := Entries(disk, start, start);
        var i := Lookup(es, name);
        if i < |es| then found && lba == es[i].lba && size == es[i].size else !found
    {
      hide Octal, NameOf, Entries, Lookup;
      var current := start;
      found, lba, size := false, 0, 0;
      ghost var before := 0;
      while true
        invariant Valid() && start <= current <= start + LIMIT
        invariant before <= |Entries(disk, start, start)| &&
          Entries(disk, start, start)[before..] == Entries(disk, start, current)
        invariant forall j :: 0 <= j < before ==> Entries(disk, start, start)[j].name != name
        decreases start + LIMIT - current
      {
        ghost var es := Entries(disk, start, start);
        var buffer := CachedReadSector(current);
        SectorSize(disk, current);
        if buffer[0] == 0 {
          NoEntry(disk, start, current);
          NotFound(es, name);
          return;
        }
        EntryAt(disk, start, current, es, before);
        var length := OctalToInt(buffer[SIZE_AT..]);
        if NameOf(buffer) == name {
          LookupIs(es, name, before);
          return true, current + 1, length;
        }
        current := current + 1 + (length + 511) % WORD / SECTOR;
        before := before + 1;
        if current > start + LIMIT {
          NotFound(es, name);
          return;
        }
      }
    }

    /** `tar_get_file_by_index`: the name of entry number `index`. */
    method TarGetFileByIndex(index: int) returns (found: bool, name: seq<Byte>)
      requires Valid()
      modifies this`cache
      ensures Valid()
      ensures var es := Entries(disk, start, start);
        found == (0 <= index < |es|) && (found ==> name == es[index].name)
    {
      hide Octal, NameOf, Entries;
      var current, currentIdx := start, 0;
      found, name := false, [];
      while true
        invariant Valid() && start <= current <= start + LIMIT && 0 <= currentIdx && (index < 0 || currentIdx <= index)
        invariant currentIdx <= |Entries(disk, start, start)| &&
          Entries(disk, start, start)[currentIdx..] == Entries(disk, start, current)
        decreases start + LIMIT - current
      {
        ghost var es := Entries(disk, start, start);
        var buffer := CachedReadSector(current);
        SectorSize(disk, current);
        if buffer[0] == 0 {
          NoEntry(disk, start, current);
          return;
        }
        EntryAt(disk, start, current, es, currentIdx);
        if currentIdx == index {
          return true, NameOf(buffer);
        }
        var length := OctalToInt(buffer[SIZE_AT..]);
        current := current + 1 + (length + 511) % WORD / SECTOR;
        currentIdx := currentIdx + 1;
        if current > start + LIMIT {
          return;
        }
      }
    }

    /** `vfs_open`: the first free descriptor, at the start of the file, or -1. */
    method OpenFile(path: seq<Byte>) returns (fd: int)
      requires Valid()
      modifies this`cache, fds
      ensures Valid()
      ensures var es := Entries(disk, start, start);
        var e := Lookup(es, path);
        if fd == -1 then (e == |es| || forall i :: 0 <= i < MAX_FDS ==> old(fds[i].inUse)) && fds[..] == old(fds[..])
        else
          && e < |es| && 0 <= fd < MAX_FDS && !old(fds[fd].inUse) && (forall j :: 0 <= j < fd ==> old(fds[j].inUse))
          && fds[..] == old(fds[..])[fd := Fd(true, es[e].lba, es[e].size, 0)]
    {
      hide Lookup, Entries;
      var found, lba, size := TarFindFile(path);
      if !found {
        return -1;
      }
      SizeFits(disk, start, start, Lookup(Entries(disk, start, start), path));
      for i := 0 to MAX_FDS
        invariant fds[..] == old(fds[..]) && forall j :: 0 <= j < i ==> fds[j].inUse
      {
        if !fds[i].inUse {
          fds[i] := Fd(true, lba, size, 0);
          return i;
        }
      }
      fd := -1;
    }

    /** `vfs_close`. */
    method Close(fd: int)
      requires Valid()
      modifies fds
      ensures Valid() && !Open(fds[..], fd)
      ensures fds[..] == if 0 <= fd < MAX_FDS then old(fds[..])[fd := old(fds[fd]).(inUse := false)] else old(fds[..])
    {
      if fd >= 0 && fd < MAX_FDS {
        fds[fd] := fds[fd].(inUse := false);
      }
    }
  }

  // ----- the archive walk

  /** The header at `lba` is the next entry of the list. */
  lemma EntryAt(d: Disk, start: nat, lba: nat, es: seq<Entry>, i: nat)
    requires DiskOk(d) && lba <= start + LIMIT && i <= |es| && es[i..] == Entries(d, start, lba) && d[lba][0] != 0
    ensures i < |es| && es[i] == Entry(NameOf(d[lba]), lba + 1, SizeOf(d[lba]))
    ensures es[i + 1..] == if lba + Skip(d[lba]) > start + LIMIT then [] else Entries(d, start, lba + Skip(d[lba]))
  {
    hide Octal, NameOf;
    assert es[i..][0] == es[i] && es[i..][1..] == es[i + 1..];
  }

  lemma NoEntry(d: Disk, start: nat, lba: nat)
    requires DiskOk(d) && d[lba][0] == 0
    ensures Entries(d, start, lba) == []
  {
  }

  lemma LookupIs(es: seq<Entry>, name: seq<Byte>, i: nat)
    requires i < |es| && es[i].name == name && forall j :: 0 <= j < i ==> es[j].name != name
    ensures Lookup(es, name) == i
  {
  }

  lemma NotFound(es: seq<Entry>, name: seq<Byte>)
    ensures (forall j :: 0 <= j < |es| ==> es[j].name != name) ==> Lookup(es, name) == |es|
  {
  }

  lemma {:induction false} SizeFits(d: Disk, start: nat, lba: nat, i: nat)
    requires DiskOk(d) && i < |Entries(d, start, lba)|
    ensures Entries(d, start, lba)[i].size < WORD
    decreases i
  {
    hide NameOf;
    if i > 0 {
      SizeFits(d, start, lba + Skip(d[lba]), i - 1);
    }
  }

  // ----- the calls as runs of the machine

  lemma LooksAlone(d: Disk, cache: Cache, fds: seq<Fd>, at: nat)
    requires DiskOk(d)
    ensures forall pcs: map<nat, Pc>, c :: c in pcs && pcs[c] == Idle ==>
      Alone(Sys(d, cache, fds, pcs), AfterLook(Sys(d, cache, fds, pcs), c, at), c)
  {
    hide Alone, AfterLook, DiskOk;
    forall pcs: map<nat, Pc>, c | c in pcs && pcs[c] == Idle {
      LookAlone(Sys(d, cache, fds, pcs), c, at);
    }
  }

  lemma ReadsAlone(d: Disk, cache: Cache, fds: seq<Fd>, fd: nat, count: nat)
    requires DiskOk(d) && Open(fds, fd) && fds[fd].offset <= fds[fd].size
    ensures var f, n := fds[fd], ReadCount(fds[fd], count);
      forall pcs: map<nat, Pc>, c :: c in pcs && pcs[c] == Idle ==>
        Alone(Sys(d, cache, fds, pcs),
              Sys(d, cache, fds[fd := f.(offset := f.offset + n)],
                  pcs[c := Reading(f.startLba, f.offset, n, Bytes(d, f.startLba * SECTOR + f.offset, n))]), c)
  {
    hide Alone, DiskOk, Bytes;
    forall pcs: map<nat, Pc>, c | c in pcs && pcs[c] == Idle
    ensures var f, n := fds[fd], ReadCount(fds[fd], count);
        Alone(Sys(d, cache, fds, pcs),
              Sys(d, cache, fds[fd := f.(offset := f.offset + n)],
                  pcs[c := Reading(f.startLba, f.offset, n, Bytes(d, f.startLba * SECTOR + f.offset, n))]), c)
    {
      ReadAlone(Sys(d, cache, fds, pcs), c, fd, count);
    }
  }

  lemma WritesAlone(d: Disk, cache: Cache, fds: seq<Fd>, fd: nat, data: seq<Byte>)
    requires DiskOk(d) && Open(fds, fd) && fds[fd].offset <= fds[fd].size < WORD && |data| < WORD
    ensures var f, n := fds[fd], WriteCount(fds[fd], |data|);
      n <= |data| &&
      var job := Job(f.startLba, f.offset, data[..n], 0);
      forall pcs: map<nat, Pc>, c :: c in pcs && pcs[c] == Idle ==>
        Alone(Sys(d, cache, fds, pcs),
              Sys(Stored(d, job), CachedLast(d, cache, job), fds[fd := f.(offset := (f.offset + n) % WORD)],
                  pcs[c := Writing(job.(done := n))]), c)
  {
    hide Alone, DiskOk, Stored, CachedLast;
    WriteCountIff(fds[fd], |data|);
    forall pcs: map<nat, Pc>, c | c in pcs && pcs[c] == Idle
      ensures var f, n := fds[fd], WriteCount(fds[fd], |data|);
        var job := Job(f.startLba, f.offset, data[..n], 0);
        Alone(Sys(d, cache, fds, pcs),
              Sys(Stored(d, job), CachedLast(d, cache, job), fds[fd := f.(offset := (f.offset + n) % WORD)],
                  pcs[c := Writing(job.(done := n))]), c)
    {
      WriteAlone(Sys(d, cache, fds, pcs), c, fd, data);
    }
  }

  lemma PieceIs(job: Job, at: nat)
    requires job.done < |job.data| && at == (job.off + job.done) % WORD
    ensures At32(job) == at && SectorOf(job) == job.lba + at / SECTOR
    ensures PieceOf(job) == if SECTOR - at % SECTOR > |job.data| - job.done then |job.data| - job.done
      else SECTOR - at % SECTOR
    ensures (at + PieceOf(job)) % WORD == (job.off + job.done + PieceOf(job)) % WORD
  {
    AddMod(job.off + job.done, PieceOf(job));
    hide PieceOf;
  }

  lemma AddMod(a: nat, n: nat)
    ensures (a % WORD + n) % WORD == (a + n) % WORD
  {
  }

  lemma StoredNext(d: Disk, cache: Cache, job: Job)
    requires DiskOk(d) && job.done < |job.data|
    ensures var l := SectorOf(job);
      var d' := d[l := Spliced(job, d[l])];
      && DiskOk(d') && Stored(d', job.(done := job.done + PieceOf(job))) == Stored(d, job)
      && CachedLast(d', Cache(l, Spliced(job, d[l]), true), job.(done := job.done + PieceOf(job))) ==
         CachedLast(d, cache, job)
  {
    hide Spliced, SectorOf, PieceOf;
  }

  lemma StoredEnd(d: Disk, cache: Cache, job: Job)
    requires DiskOk(d) && job.done <= |job.data|
    ensures job.done == |job.data| ==> Stored(d, job) == d && CachedLast(d, cache, job) == cache
  {
  }

  lemma SplicedIs(job: Job, sector: seq<Byte>)
    requires job.done <= |job.data| && |sector| == SECTOR
    ensures var o, n := At32(job) % SECTOR, PieceOf(job);
      Spliced(job, sector) == sector[..o] + job.data[job.done..job.done + n] + sector[o + n..]
  {
  }

  lemma SectorSize(d: Disk, lba: nat)
    requires DiskOk(d)
    ensures |d[lba]| == SECTOR
  {
  }
}
