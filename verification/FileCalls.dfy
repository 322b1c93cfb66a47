/** What a call to the file layer does when nobody interferes: the state one CPU's steps lead to, in one formula. */
module FileCalls {
  import opened Common
  import opened DiskImage
  import opened FileMachine

  /** Steps of CPU `c` alone lead from one state to the other. */
  ghost predicate Alone(s: Sys, t: Sys, c: nat) {
    exists r: Run :: IsRun(r) && r.states[0] == s && r.states[|r.acts|] == t && forall i :: 0 <= i < |r.cpus| ==>
    r.cpus[i] == c
  }

  lemma AloneItself(s: Sys, c: nat)
    ensures Alone(s, s, c)
  {
    assert IsRun(Run([s], [], []));
  }

  lemma AloneOn(s: Sys, m: Sys, t: Sys, c: nat, a: Action)
    requires Alone(s, m, c) && Step(m, t, c, a)
    ensures Alone(s, t, c)
  {
    hide Step;
    var r: Run :| IsRun(r) && r.states[0] == s && r.states[|r.acts|] == m && forall i :: 0 <= i < |r.cpus| ==>
      r.cpus[i] == c;
    var r' := Run(r.states + [t], r.cpus + [c], r.acts + [a]);
    assert IsRun(r') && r'.states[0] == s && r'.states[|r'.acts|] == t;
  }

  // ----- reading

  /** Bytes up to the end of a sector lie in that sector. */
  lemma SameSector(a: nat, b: nat)
    ensures a <= b < a + (SECTOR - a % SECTOR) ==> b / SECTOR == a / SECTOR && b % SECTOR == a % SECTOR + (b - a)
    ensures b / SECTOR == a / SECTOR ==> b == a - a % SECTOR + b % SECTOR
  {
  }

  lemma ReadStep(d: Disk, base: nat, done: nat, buf: seq<Byte>, n: nat)
    requires DiskOk(d) && buf == Bytes(d, base, done) && n <= SECTOR - (base + done) % SECTOR
    ensures var lba, o := (base + done) / SECTOR, (base + done) % SECTOR;
      buf + d[lba][o..o + n] == Bytes(d, base, done + n)
  {
    var lba, o := (base + done) / SECTOR, (base + done) % SECTOR;
    var r, want := buf + d[lba][o..o + n], Bytes(d, base, done + n);
    hide Bytes;
    forall i: nat | i < done + n
      ensures r[i] == want[i]
    {
      SameSector(base + done, base + i);
      assert want[i] == At(d, base + i);
    }
  }

  /** A CPU about to return from a read of the descriptor. */
  ghost function AfterRead(s: Sys, c: nat, fd: nat, count: nat): Sys
    requires DiskOk(s.disk) && Open(s.fds, fd) && s.fds[fd].offset <= s.fds[fd].size
  {
    var f := s.fds[fd];
    var n := ReadCount(f, count);
    s.(fds := s.fds[fd := f.(offset := f.offset + n)],
       pc := s.pc[c := Reading(f.startLba, f.offset, n, Bytes(s.disk, f.startLba * SECTOR + f.offset, n))])
  }

  lemma {:induction false} ReadsOn(s: Sys, t: Sys, c: nat, lba: nat, off: nat, count: nat, done: nat)
    requires Alone(s, t, c) && DiskOk(t.disk) && c in t.pc && done <= count
    requires t.pc[c] == Reading(lba, off, count, Bytes(t.disk, lba * SECTOR + off, done))
    ensures Alone(s, t.(pc := t.pc[c := Reading(lba, off, count, Bytes(t.disk, lba * SECTOR + off, count))]), c)
    decreases count - done
  {
    hide Alone, DiskOk, Bytes;
    if done == count {
      assert t.pc[c := t.pc[c]] == t.pc;
    } else {
      var n := Piece(off + done, count - done);
      var base := lba * SECTOR + off;
      assert (base + done) / SECTOR == lba + (off + done) / SECTOR && (base + done) % SECTOR == (off + done) % SECTOR;
      ReadStep(t.disk, base, done, Bytes(t.disk, base, done), n);
      var u := t.(pc := t.pc[c := Reading(lba, off, count, Bytes(t.disk, base, done + n))]);
      assert ReadPiece(t, u, c);
      hide ReadPiece;
      AloneOn(s, t, u, c, AReadPiece);
      ReadsOn(s, u, c, lba, off, count, done + n);
      assert u.pc[c := Reading(lba, off, count, Bytes(t.disk, base, count))] ==
        t.pc[c := Reading(lba, off, count, Bytes(t.disk, base, count))];
    }
  }

  /** One CPU's steps end there. */
  lemma ReadAlone(s: Sys, c: nat, fd: nat, count: nat)
    requires DiskOk(s.disk) && Open(s.fds, fd) && s.fds[fd].offset <= s.fds[fd].size && c in s.pc && s.pc[c] == Idle
    ensures Alone(s, AfterRead(s, c, fd, count), c)
  {
    hide Alone, DiskOk;
    var f := s.fds[fd];
    var n := ReadCount(f, count);
    var t := s.(fds := s.fds[fd := f.(offset := f.offset + n)], pc := s.pc[c := Reading(f.startLba, f.offset, n, [])]);
    AloneItself(s, c);
    assert ClaimRead(s, t, c, fd, count);
    hide ClaimRead;
    AloneOn(s, s, t, c, AClaimRead(fd, count));
    assert Bytes(s.disk, f.startLba * SECTOR + f.offset, 0) == [];
    ReadsOn(s, t, c, f.startLba, f.offset, n, 0);
    hide Bytes;
    assert t.pc[c := AfterRead(s, c, fd, count).pc[c]] == s.pc[c := AfterRead(s, c, fd, count).pc[c]];
  }

  // ----- writing

  /** The disk after all the sectors of a job have been written back. */
  ghost function Stored(d: Disk, job: Job): (d': Disk)
    requires DiskOk(d) && job.done <= |job.data|
    ensures DiskOk(d')
    decreases |job.data| - job.done
  {
    if job.done == |job.data| then d
    else Stored(d[SectorOf(job) := Spliced(job, d[SectorOf(job)])], Advanced(job))
  }

  /** The cache then. */
  ghost function CachedLast(d: Disk, cache: Cache, job: Job): Cache
    requires DiskOk(d) && job.done <= |job.data|
    decreases |job.data| - job.done
  {
    if job.done == |job.data| then cache
    else
      var bytes := Spliced(job, d[SectorOf(job)]);
      CachedLast(d[SectorOf(job) := bytes], Cache(SectorOf(job), bytes, true), Advanced(job))
  }

  /** The byte of the data that goes to disk address `b`, counted in 32 bits from the offset on. */
  function IndexOf(job: Job, b: nat): nat
    requires job.off < WORD
  {
    if job.lba * SECTOR <= b < job.lba * SECTOR + WORD then (b - job.lba * SECTOR + (WORD - job.off)) % WORD else WORD
  }

  /** The bytes of the job from `done` on are on the disk, each at its place, and no other byte has changed. */
  ghost predicate WroteJob(d: Disk, d': Disk, job: Job)
    requires job.off < WORD
  {
    DiskOk(d) && DiskOk(d') &&
    forall b: nat :: At(d', b) == if job.done <= IndexOf(job, b) < |job.data| then job.data[IndexOf(job, b)]
    else At(d, b)
  }

  /** The addresses of one piece. */
  lemma PieceIndex(job: Job, b: nat)
    requires job.off < WORD && job.done < |job.data| < WORD
    ensures var a := At32(job);
      (b / SECTOR == SectorOf(job) && a % SECTOR <= b % SECTOR < a % SECTOR + PieceOf(job)) <==>
      job.done <= IndexOf(job, b) < job.done + PieceOf(job)
    ensures var a := At32(job);
      job.done <= IndexOf(job, b) < job.done + PieceOf(job) ==> IndexOf(job, b) == job.done + (b % SECTOR - a % SECTOR)
  {
    var a, n := At32(job), PieceOf(job);
    var base := job.lba * SECTOR;
    assert a / SECTOR < WORD / SECTOR && a == a / SECTOR * SECTOR + a % SECTOR;
    assert (b / SECTOR == job.lba + a / SECTOR && a % SECTOR <= b % SECTOR < a % SECTOR + n) <==>
      base + a <= b < base + a + n;
    if base <= b < base + WORD {
      var x := b - base;
      IndexMod(x, job.off, job.done);
      assert IndexOf(job, b) == (x + (WORD - job.off)) % WORD;
      assert a + n <= WORD;
    }
    hide SectorOf, At32, PieceOf, IndexOf;
  }

  /** The number of the byte at file offset `x`, and back. */
  lemma IndexMod(x: nat, off: nat, done: nat)
    requires x < WORD && off < WORD && done < WORD
    ensures var a, i := (off + done) % WORD, (x + (WORD - off)) % WORD;
      && (x >= a && i >= done ==> i - done == x - a)
      && (x >= a && i < done ==> done - i == WORD - (x - a))
      && (x < a && i >= done ==> i - done == WORD - (a - x))
      && (x < a && i < done ==> done - i == a - x)
  {
  }

  lemma {:induction false} StoredBytes(d: Disk, job: Job)
    requires DiskOk(d) && job.off < WORD && job.done <= |job.data| < WORD
    ensures WroteJob(d, Stored(d, job), job)
    decreases |job.data| - job.done
  {
    if job.done < |job.data| {
      hide IndexOf, At32, SectorOf, PieceOf;
      var d' := d[SectorOf(job) := Spliced(job, d[SectorOf(job)])];
      var next := Advanced(job);
      StoredBytes(d', next);
      forall b: nat
        ensures At(Stored(d', next), b) == if job.done <= IndexOf(job, b) < |job.data| then job.data[IndexOf(job, b)]
          else At(d, b)
      {
        SameIndex(job, next, b);
        PieceIndex(job, b);
        PiecePut(d, job, b);
      }
      hide Stored;
    }
  }

  lemma SameIndex(job: Job, next: Job, b: nat)
    requires job.off < WORD && next == job.(done := next.done)
    ensures IndexOf(next, b) == IndexOf(job, b)
  {
  }

  lemma PiecePut(d: Disk, job: Job, b: nat)
    requires DiskOk(d) && job.done < |job.data|
    ensures var a, d' := At32(job), d[SectorOf(job) := Spliced(job, d[SectorOf(job)])];
      At(d', b) == if b / SECTOR == SectorOf(job) && a % SECTOR <= b % SECTOR < a % SECTOR + PieceOf(job)
                   then job.data[job.done + (b % SECTOR - a % SECTOR)] else At(d, b)
  {
    hide At32, SectorOf, PieceOf;
  }

  /** If the offset does not pass 2^32, that is the data spliced into the disk at the file's position. */
  lemma StoredSplice(d: Disk, d': Disk, lba: nat, off: nat, data: seq<Byte>)
    requires off < WORD && off + |data| <= WORD && WroteJob(d, d', Job(lba, off, data, 0))
    ensures Wrote(d, d', lba * SECTOR + off, data)
  {
    var job := Job(lba, off, data, 0);
    forall b: nat
      ensures 0 <= IndexOf(job, b) < |data| <==> lba * SECTOR + off <= b < lba * SECTOR + off + |data|
      ensures 0 <= IndexOf(job, b) < |data| ==> IndexOf(job, b) == b - (lba * SECTOR + off)
    {
      if lba * SECTOR <= b < lba * SECTOR + WORD {
        IndexMod(b - lba * SECTOR, off, 0);
      }
    }
    hide IndexOf;
  }

  /** A CPU about to return from a write to the descriptor. */
  ghost function AfterWrite(s: Sys, c: nat, fd: nat, data: seq<Byte>): Sys
    requires DiskOk(s.disk) && Open(s.fds, fd) && s.fds[fd].offset <= s.fds[fd].size < WORD && |data| < WORD
  {
    var f := s.fds[fd];
    WriteCountIff(f, |data|);
    var n := WriteCount(f, |data|);
    var job := Job(f.startLba, f.offset, data[..n], 0);
    Sys(Stored(s.disk, job), CachedLast(s.disk, s.cache, job), s.fds[fd := f.(offset := (f.offset + n) % WORD)],
        s.pc[c := Writing(job.(done := n))])
  }

  /** One round of the loop: five steps. */
  lemma WriteRound(s: Sys, t: Sys, c: nat, job: Job)
    requires Alone(s, t, c) && DiskOk(t.disk) && c in t.pc && t.pc[c] == Writing(job) && job.done < |job.data|
    ensures var l := SectorOf(job);
      var bytes := Spliced(job, t.disk[l]);
      Alone(s, t.(disk := t.disk[l := bytes], cache := Cache(l, bytes, true), pc := t.pc[c := Writing(Advanced(job))]),
            c)
  {
    hide Alone, DiskOk, Spliced, SectorOf, Advanced, PieceOf;
    assert |t.disk[SectorOf(job)]| == SECTOR by { SectorFull(t.disk, SectorOf(job)); }
    var l := SectorOf(job);
    var bytes := Spliced(job, t.disk[l]);
    var t1 := t.(pc := t.pc[c := Splicing(job, t.disk[l])]);
    AloneOn(s, t, t1, c, AFetchSector);
    var t2 := t1.(disk := t1.disk[l := bytes], pc := t1.pc[c := PuttingData(job, l, bytes)]);
    AloneOn(s, t1, t2, c, APutSector);
    var t3 := t2.(cache := t2.cache.(data := bytes), pc := t2.pc[c := PuttingLba(job, l)]);
    AloneOn(s, t2, t3, c, APutData);
    var t4 := t3.(cache := t3.cache.(lba := l), pc := t3.pc[c := PuttingValid(job, l)]);
    AloneOn(s, t3, t4, c, APutLba);
    var t5 := t4.(cache := t4.cache.(valid := true), pc := t4.pc[c := Writing(Advanced(job))]);
    AloneOn(s, t4, t5, c, APutValid);
    assert t5.pc == t.pc[c := Writing(Advanced(job))];
  }

  lemma SectorFull(d: Disk, l: nat)
    requires DiskOk(d)
    ensures l in d && |d[l]| == SECTOR
  {
  }

  lemma {:induction false} WritesOn(s: Sys, t: Sys, c: nat, job: Job)
    requires Alone(s, t, c) && DiskOk(t.disk) && c in t.pc && t.pc[c] == Writing(job) && job.done <= |job.data|
    ensures Alone(s, t.(disk := Stored(t.disk, job), cache := CachedLast(t.disk, t.cache, job),
                        pc := t.pc[c := Writing(job.(done := |job.data|))]), c)
    decreases |job.data| - job.done
  {
    hide Alone, Spliced, SectorOf;
    if job.done == |job.data| {
      assert t.pc[c := t.pc[c]] == t.pc;
    } else {
      var l := SectorOf(job);
      var bytes := Spliced(job, t.disk[l]);
      var u := t.(disk := t.disk[l := bytes], cache := Cache(l, bytes, true), pc := t.pc[c := Writing(Advanced(job))]);
      WriteRound(s, t, c, job);
      WritesOn(s, u, c, Advanced(job));
      var q := Writing(job.(done := |job.data|));
      assert u.pc[c := q] == t.pc[c := q];
    }
  }

  lemma WriteAlone(s: Sys, c: nat, fd: nat, data: seq<Byte>)
    requires DiskOk(s.disk) && Open(s.fds, fd) && s.fds[fd].offset <= s.fds[fd].size < WORD && |data| < WORD
    requires c in s.pc && s.pc[c] == Idle
    ensures Alone(s, AfterWrite(s, c, fd, data), c)
  {
    hide Alone, DiskOk, Stored, CachedLast;
    var f := s.fds[fd];
    WriteCountIff(f, |data|);
    var n := WriteCount(f, |data|);
    var job := Job(f.startLba, f.offset, data[..n], 0);
    var t := s.(fds := s.fds[fd := f.(offset := (f.offset + n) % WORD)], pc := s.pc[c := Writing(job)]);
    AloneItself(s, c);
    assert ClaimWrite(s, t, c, fd, data);
    hide ClaimWrite;
    AloneOn(s, s, t, c, AClaimWrite(fd, data));
    WritesOn(s, t, c, job);
    var q := Writing(job.(done := n));
    assert t.pc[c := q] == s.pc[c := q];
  }

  // ----- looking up a sector

  /** A CPU about to return from `cached_read_sector`. */
  ghost function AfterLook(s: Sys, c: nat, at: nat): Sys
    requires DiskOk(s.disk)
  {
    var hit := s.cache.valid && s.cache.lba == at;
    s.(cache := if hit then s.cache else Cache(at, s.disk[at], true),
       pc := s.pc[c := Found(at, if hit then s.cache.data else s.disk[at])])
  }

  lemma LookAlone(s: Sys, c: nat, at: nat)
    requires DiskOk(s.disk) && c in s.pc && s.pc[c] == Idle
    ensures Alone(s, AfterLook(s, c, at), c)
  {
    hide Alone, DiskOk;
    assert at in s.disk by { SectorFull(s.disk, at); }
    var t1 := s.(pc := s.pc[c := Looking(at)]);
    AloneItself(s, c);
    AloneOn(s, s, t1, c, ALook(at));
    if s.cache.valid && s.cache.lba == at {
      var t2 := t1.(pc := t1.pc[c := Hitting(at)]);
      AloneOn(s, t1, t2, c, ACompare);
      var t3 := t2.(pc := t2.pc[c := Found(at, s.cache.data)]);
      AloneOn(s, t2, t3, c, ACopyOut);
      assert t3.pc == s.pc[c := Found(at, s.cache.data)];
    } else {
      var t2 := t1.(pc := t1.pc[c := Filling(at)]);
      AloneOn(s, t1, t2, c, ACompare);
      LookMisses(s, t2, c, at);
      assert t2.pc[c := Found(at, s.disk[at])] == s.pc[c := Found(at, s.disk[at])];
    }
  }

  lemma LookMisses(s: Sys, t: Sys, c: nat, at: nat)
    requires Alone(s, t, c) && DiskOk(t.disk) && c in t.pc && t.pc[c] == Filling(at)
    ensures Alone(s, t.(cache := Cache(at, t.disk[at], true), pc := t.pc[c := Found(at, t.disk[at])]), c)
  {
    hide Alone, DiskOk;
    assert at in t.disk by { SectorFull(t.disk, at); }
    var t1 := t.(cache := t.cache.(data := t.disk[at]), pc := t.pc[c := Naming(at)]);
    AloneOn(s, t, t1, c, AFill);
    var t2 := t1.(cache := t1.cache.(lba := at), pc := t1.pc[c := Validating(at)]);
    AloneOn(s, t1, t2, c, ANameSector);
    var t3 := t2.(cache := t2.cache.(valid := true), pc := t2.pc[c := CopyingOut(at)]);
    AloneOn(s, t2, t3, c, AValidate);
    var t4 := t3.(pc := t3.pc[c := Found(at, t.disk[at])]);
    AloneOn(s, t3, t4, c, ACopyOut);
    assert t4.pc == t.pc[c := Found(at, t.disk[at])];
  }
}
