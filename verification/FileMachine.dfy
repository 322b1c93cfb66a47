/** The file layer with any number of CPUs in it. The descriptor table is changed under a lock; sectors and the three
    fields of the one-sector cache are read and written without one, so each such access is a step of its own, and runs
    are all interleavings of these steps. */
module FileMachine {
  import opened Common
  import opened DiskImage

  const MAX_FDS: nat := 16

  const WORD: nat := 0x1_0000_0000

  datatype Fd = Fd(inUse: bool, startLba: nat, size: nat, offset: nat)

  datatype Cache = Cache(lba: nat, data: seq<Byte>, valid: bool)

  /** A write under way: `done` bytes of `data` are on the disk, from byte `off` of the file that starts at `lba`. */
  datatype Job = Job(lba: nat, off: nat, data: seq<Byte>, done: nat)

  /** What a CPU is about to do. */
  datatype Pc =
    | Idle
    | Reading(lba: nat, off: nat, count: nat, buf: seq<Byte>)  // read the next sector, or return
    | Writing(job: Job)                                        // read the next sector, or return
    | Splicing(job: Job, sector: seq<Byte>)                    // write the changed sector
    | PuttingData(job: Job, at: nat, bytes: seq<Byte>)         // copy it to the cache
    | PuttingLba(job: Job, at: nat)                            // name it there
    | PuttingValid(job: Job, at: nat)                          // call it valid
    | Looking(at: nat)                                         // compare the cache with the sector wanted
    | Hitting(at: nat)                                         // copy it from the cache
    | Filling(at: nat)                                         // read it into the cache
    | Naming(at: nat)                                          // name it there
    | Validating(at: nat)                                      // call it valid
    | CopyingOut(at: nat)                                      // copy it from the cache
    | Found(at: nat, bytes: seq<Byte>)                         // return it

  datatype Sys = Sys(disk: Disk, cache: Cache, fds: seq<Fd>, pc: map<nat, Pc>)

  predicate Open(fds: seq<Fd>, fd: int) {
    0 <= fd < |fds| && fds[fd].inUse
  }

  // ----- how much is transferred

  function ReadCount(f: Fd, count: nat): (n: nat)
    requires f.offset <= f.size
  {
    Min(count, f.size - f.offset)
  }

  /** How much `vfs_write` writes: the clamp is computed in 32-bit arithmetic. */
  function WriteCount(f: Fd, count: nat): nat
    requires f.offset <= f.size
  {
    if (f.offset + count) % WORD > f.size then f.size - f.offset else count
  }

  /** Offset plus count wraps around to something inside the file. */
  predicate Wraps(f: Fd, count: nat) {
    f.offset + count >= WORD && f.offset + count - WORD <= f.size
  }

  /** The write stays inside the file exactly if that does not happen. */
  lemma WriteCountIff(f: Fd, count: nat)
    requires f.offset <= f.size < WORD && count < WORD
    ensures f.offset + WriteCount(f, count) <= f.size <==> !Wraps(f, count)
    ensures !Wraps(f, count) ==> WriteCount(f, count) == Min(count, f.size - f.offset)
    ensures Wraps(f, count) ==> WriteCount(f, count) == count
    ensures WriteCount(f, count) <= count && (f.offset + WriteCount(f, count)) % WORD <= f.size
  {
  }

  /** Half way through a file of 600 bytes, a request of four gigabytes less 50 bytes is not cut short. */
  lemma WriteWraps()
    ensures var f := Fd(true, 0, 600, 300);
      WriteCount(f, WORD - 50) == WORD - 50 && f.offset + WriteCount(f, WORD - 50) > f.size
  {
  }

  /** The part of a transfer that lies in one sector, from its byte `at` on with `left` bytes to go. */
  function Piece(at: nat, left: nat): (n: nat)
    ensures n <= left && at % SECTOR + n <= SECTOR && (left > 0 ==> n > 0)
  {
    var room := SECTOR - at % SECTOR;
    if room > left then left else room
  }

  /** Where the next piece of a job goes: the file offset is a 32-bit number. */
  function At32(job: Job): nat {
    (job.off + job.done) % WORD
  }

  function SectorOf(job: Job): nat {
    job.lba + At32(job) / SECTOR
  }

  function PieceOf(job: Job): (n: nat)
    requires job.done <= |job.data|
    ensures job.done + n <= |job.data| && At32(job) % SECTOR + n <= SECTOR
  {
    Piece(At32(job), |job.data| - job.done)
  }

  /** The sector with the job's next piece in it. */
  function Spliced(job: Job, sector: seq<Byte>): (s: seq<Byte>)
    requires job.done <= |job.data| && |sector| == SECTOR
    ensures |s| == SECTOR
  {
    var o, n := At32(job) % SECTOR, PieceOf(job);
    sector[..o] + job.data[job.done..job.done + n] + sector[o + n..]
  }

  function Advanced(job: Job): Job
    requires job.done <= |job.data|
  {
    job.(done := job.done + PieceOf(job))
  }

  // ----- steps

  /** The locked section of `vfs_read`. */
  ghost predicate ClaimRead(s: Sys, s': Sys, c: nat, fd: int, count: nat) {
    && c in s.pc && s.pc[c].Idle?
    && if !Open(s.fds, fd) then s' == s
       else
         var f := s.fds[fd];
         f.offset <= f.size &&
         var n := ReadCount(f, count);
         s' == s.(fds := s.fds[fd := f.(offset := f.offset + n)], pc := s.pc[c := Reading(f.startLba, f.offset, n, [])])
  }

  /** The locked section of `vfs_write`. */
  ghost predicate ClaimWrite(s: Sys, s': Sys, c: nat, fd: int, data: seq<Byte>) {
    && c in s.pc && s.pc[c].Idle? && |data| < WORD
    && if !Open(s.fds, fd) then s' == s
       else
         var f := s.fds[fd];
         f.offset <= f.size && WriteCount(f, |data|) <= |data| &&
         var n := WriteCount(f, |data|);
         s' == s.(fds := s.fds[fd := f.(offset := (f.offset + n) % WORD)],
                  pc := s.pc[c := Writing(Job(f.startLba, f.offset, data[..n], 0))])
  }

  /** The locked section of `vfs_open`, for a file the archive has. */
  ghost predicate OpenAt(s: Sys, s': Sys, c: nat, fd: nat, lba: nat, size: nat) {
    && c in s.pc && s.pc[c].Idle? && fd < |s.fds| && !s.fds[fd].inUse && size < WORD
    && s' == s.(fds := s.fds[fd := Fd(true, lba, size, 0)])
  }

  ghost predicate Close(s: Sys, s': Sys, c: nat, fd: nat) {
    && c in s.pc && s.pc[c].Idle? && fd < |s.fds|
    && s' == s.(fds := s.fds[fd := s.fds[fd].(inUse := false)])
  }

  ghost predicate ReadPiece(s: Sys, s': Sys, c: nat) {
    && c in s.pc && s.pc[c].Reading? && |s.pc[c].buf| < s.pc[c].count && DiskOk(s.disk)
    && var p := s.pc[c];
    && var at := p.off + |p.buf|;
    && var n := Piece(at, p.count - |p.buf|);
    && s' == s.(pc := s.pc[c := p.(buf := p.buf + s.disk[p.lba + at / SECTOR][at % SECTOR..at % SECTOR + n])])
  }

  ghost predicate FetchSector(s: Sys, s': Sys, c: nat) {
    && c in s.pc && s.pc[c].Writing? && s.pc[c].job.done < |s.pc[c].job.data| && DiskOk(s.disk)
    && var j := s.pc[c].job;
    && s' == s.(pc := s.pc[c := Splicing(j, s.disk[SectorOf(j)])])
  }

  /** The first line of `cached_write_sector`. */
  ghost predicate PutSector(s: Sys, s': Sys, c: nat) {
    && c in s.pc && s.pc[c].Splicing? && |s.pc[c].sector| == SECTOR && s.pc[c].job.done <= |s.pc[c].job.data|
    && var j := s.pc[c].job;
    && var bytes := Spliced(j, s.pc[c].sector);
    && s' == s.(disk := s.disk[SectorOf(j) := bytes], pc := s.pc[c := PuttingData(j, SectorOf(j), bytes)])
  }

  ghost predicate PutData(s: Sys, s': Sys, c: nat) {
    && c in s.pc && s.pc[c].PuttingData?
    && s' == s.(cache := s.cache.(data := s.pc[c].bytes), pc := s.pc[c := PuttingLba(s.pc[c].job, s.pc[c].at)])
  }

  ghost predicate PutLba(s: Sys, s': Sys, c: nat) {
    && c in s.pc && s.pc[c].PuttingLba?
    && s' == s.(cache := s.cache.(lba := s.pc[c].at), pc := s.pc[c := PuttingValid(s.pc[c].job, s.pc[c].at)])
  }

  ghost predicate PutValid(s: Sys, s': Sys, c: nat) {
    && c in s.pc && s.pc[c].PuttingValid? && s.pc[c].job.done <= |s.pc[c].job.data|
    && s' == s.(cache := s.cache.(valid := true), pc := s.pc[c := Writing(Advanced(s.pc[c].job))])
  }

  /** `cached_read_sector` is called. */
  ghost predicate Look(s: Sys, s': Sys, c: nat, at: nat) {
    && c in s.pc && s.pc[c].Idle?
    && s' == s.(pc := s.pc[c := Looking(at)])
  }

  ghost predicate Compare(s: Sys, s': Sys, c: nat) {
    && c in s.pc && s.pc[c].Looking?
    && var at := s.pc[c].at;
    && s' == s.(pc := s.pc[c := if s.cache.valid && s.cache.lba == at then Hitting(at) else Filling(at)])
  }

  ghost predicate Fill(s: Sys, s': Sys, c: nat) {
    && c in s.pc && s.pc[c].Filling? && DiskOk(s.disk)
    && var at := s.pc[c].at;
    && s' == s.(cache := s.cache.(data := s.disk[at]), pc := s.pc[c := Naming(at)])
  }

  ghost predicate NameSector(s: Sys, s': Sys, c: nat) {
    && c in s.pc && s.pc[c].Naming?
    && s' == s.(cache := s.cache.(lba := s.pc[c].at), pc := s.pc[c := Validating(s.pc[c].at)])
  }

  ghost predicate Validate(s: Sys, s': Sys, c: nat) {
    && c in s.pc && s.pc[c].Validating?
    && s' == s.(cache := s.cache.(valid := true), pc := s.pc[c := CopyingOut(s.pc[c].at)])
  }

  ghost predicate CopyOut(s: Sys, s': Sys, c: nat) {
    && c in s.pc && (s.pc[c].Hitting? || s.pc[c].CopyingOut?)
    && s' == s.(pc := s.pc[c := Found(s.pc[c].at, s.cache.data)])
  }

  ghost predicate Return(s: Sys, s': Sys, c: nat) {
    && c in s.pc
    && match s.pc[c] {
         case Reading(_, _, count, buf) => |buf| == count
         case Writing(job) => job.done == |job.data|
         case Found(_, _) => true
         case _ => false
       }
    && s' == s.(pc := s.pc[c := Idle])
  }

  datatype Action =
    | AClaimRead(fd: int, count: nat) | AClaimWrite(fd: int, data: seq<Byte>)
    | AOpenAt(slot: nat, lba: nat, size: nat) | AClose(slot: nat)
    | AReadPiece | AFetchSector | APutSector | APutData | APutLba | APutValid
    | ALook(at: nat) | ACompare | AFill | ANameSector | AValidate | ACopyOut | AReturn

  ghost predicate Step(s: Sys, s': Sys, c: nat, a: Action) {
    match a
    case AClaimRead(fd, count) => ClaimRead(s, s', c, fd, count)
    case AClaimWrite(fd, data) => ClaimWrite(s, s', c, fd, data)
    case AOpenAt(fd, lba, size) => OpenAt(s, s', c, fd, lba, size)
    case AClose(fd) => Close(s, s', c, fd)
    case AReadPiece => ReadPiece(s, s', c)
    case AFetchSector => FetchSector(s, s', c)
    case APutSector => PutSector(s, s', c)
    case APutData => PutData(s, s', c)
    case APutLba => PutLba(s, s', c)
    case APutValid => PutValid(s, s', c)
    case ALook(at) => Look(s, s', c, at)
    case ACompare => Compare(s, s', c)
    case AFill => Fill(s, s', c)
    case ANameSector => NameSector(s, s', c)
    case AValidate => Validate(s, s', c)
    case ACopyOut => CopyOut(s, s', c)
    case AReturn => Return(s, s', c)
  }

  datatype Run = Run(states: seq<Sys>, cpus: seq<nat>, acts: seq<Action>)

  ghost predicate IsRun(r: Run) {
    && |r.states| == |r.acts| + 1 && |r.cpus| == |r.acts|
    && forall i :: 0 <= i < |r.acts| ==> Step(r.states[i], r.states[i + 1], r.cpus[i], r.acts[i])
  }

  // ----- what holds in every reachable state

  ghost predicate FdsOk(s: Sys) {
    |s.fds| == MAX_FDS && forall i :: 0 <= i < MAX_FDS && s.fds[i].inUse ==> s.fds[i].offset <= s.fds[i].size < WORD
  }

  ghost predicate PcOk(p: Pc) {
    match p
    case Reading(_, _, count, buf) => |buf| <= count
    case Writing(j) => j.done <= |j.data|
    case Splicing(j, sector) => j.done < |j.data| && |sector| == SECTOR
    case PuttingData(j, at, bytes) => j.done < |j.data| && at == SectorOf(j) && |bytes| == SECTOR
    case PuttingLba(j, at) => j.done < |j.data| && at == SectorOf(j)
    case PuttingValid(j, at) => j.done < |j.data| && at == SectorOf(j)
    case _ => true
  }

  ghost predicate Inv(s: Sys) {
    DiskOk(s.disk) && |s.cache.data| == SECTOR && FdsOk(s) && forall c :: c in s.pc ==> PcOk(s.pc[c])
  }

  /** A step of another CPU leaves this one where it is. */
  lemma OtherPc(s: Sys, s': Sys, d: nat, a: Action, c: nat)
    requires Step(s, s', d, a) && c in s.pc && c != d
    ensures c in s'.pc && s'.pc[c] == s.pc[c]
  {
  }

  lemma Acts(s: Sys, s': Sys, c: nat, a: Action)
    requires Step(s, s', c, a)
    ensures c in s.pc && s'.pc.Keys == s.pc.Keys
  {
  }

  lemma StepStore(s: Sys, s': Sys, c: nat, a: Action)
    requires DiskOk(s.disk) && |s.cache.data| == SECTOR && Step(s, s', c, a) && c in s.pc && PcOk(s.pc[c])
    ensures DiskOk(s'.disk) && |s'.cache.data| == SECTOR
  {
    hide Spliced, PieceOf, At32, SectorOf;
  }

  lemma StepFds(s: Sys, s': Sys, c: nat, a: Action)
    requires FdsOk(s) && Step(s, s', c, a)
    ensures FdsOk(s')
  {
    hide Spliced, PieceOf, At32, SectorOf, DiskOk, Piece;
    if a.AClaimWrite? && Open(s.fds, a.fd) {
      WriteCountIff(s.fds[a.fd], |a.data|);
    }
  }

  lemma StepPc(s: Sys, s': Sys, c: nat, a: Action)
    requires DiskOk(s.disk) && Step(s, s', c, a) && c in s.pc && PcOk(s.pc[c])
    ensures c in s'.pc && PcOk(s'.pc[c])
  {
    hide Spliced, At32, SectorOf;
  }

  lemma StepInv(s: Sys, s': Sys, c: nat, a: Action)
    requires Inv(s) && Step(s, s', c, a)
    ensures Inv(s')
  {
    hide Step, FdsOk, DiskOk, PcOk;
    Acts(s, s', c, a);
    StepStore(s, s', c, a);
    StepFds(s, s', c, a);
    StepPc(s, s', c, a);
    forall d | d in s.pc && d != c
      ensures s'.pc[d] == s.pc[d]
    {
      OtherPc(s, s', c, a, d);
    }
  }

  lemma {:induction false} RunInv(r: Run, n: nat)
    requires IsRun(r) && Inv(r.states[0]) && n <= |r.acts|
    ensures Inv(r.states[n])
  {
    hide Inv, Step;
    if n > 0 {
      RunInv(r, n - 1);
      StepInv(r.states[n - 1], r.states[n], r.cpus[n - 1], r.acts[n - 1]);
    }
  }

  // ----- claims on a descriptor

  /** Step `i` claims bytes of the open file behind the descriptor. */
  ghost predicate Claims(r: Run, i: nat, fd: nat)
    requires IsRun(r) && i < |r.acts|
  {
    Open(r.states[i].fds, fd) && (r.acts[i].AClaimRead? || r.acts[i].AClaimWrite?) && r.acts[i].fd == fd
  }

  /** Where the claim starts, and how many bytes it takes. */
  ghost function ClaimStart(r: Run, i: nat, fd: nat): nat
    requires IsRun(r) && i < |r.acts| && Claims(r, i, fd)
  {
    r.states[i].fds[fd].offset
  }

  ghost function ClaimCount(r: Run, i: nat, fd: nat): nat
    requires IsRun(r) && i < |r.acts| && Claims(r, i, fd) && FdsOk(r.states[i])
  {
    if r.acts[i].AClaimRead? then ReadCount(r.states[i].fds[fd], r.acts[i].count)
    else WriteCount(r.states[i].fds[fd], |r.acts[i].data|)
  }

  /** Neither opened nor closed, nor written with a count that wraps around, in steps `i` to `j` of the run. */
  ghost predicate Undisturbed(r: Run, i: nat, j: nat, fd: nat)
    requires IsRun(r) && i <= j <= |r.acts|
  {
    forall k :: i <= k < j ==> UndisturbedAt(r, k, fd)
  }

  ghost predicate UndisturbedAt(r: Run, k: nat, fd: nat)
    requires IsRun(r) && k < |r.acts|
  {
    && (r.acts[k].AOpenAt? || r.acts[k].AClose? ==> r.acts[k].slot != fd)
    && (r.acts[k].AClaimWrite? && r.acts[k].fd == fd && Open(r.states[k].fds, fd) ==>
        !Wraps(r.states[k].fds[fd], |r.acts[k].data|))
  }

  /** What one step does to the descriptor. */
  lemma FdStep(r: Run, k: nat, fd: nat)
    requires IsRun(r) && k < |r.acts| && Inv(r.states[k]) && fd < MAX_FDS && r.states[k].fds[fd].inUse &&
      UndisturbedAt(r, k, fd)
    ensures fd < |r.states[k + 1].fds|
    ensures var f, f' := r.states[k].fds[fd], r.states[k + 1].fds[fd];
      && f' == f.(offset := if Claims(r, k, fd) then f.offset + ClaimCount(r, k, fd) else f.offset)
      && f'.offset <= f'.size
  {
    var s, s', a := r.states[k], r.states[k + 1], r.acts[k];
    assert Step(s, s', r.cpus[k], a);
    assert s.fds[fd].offset <= s.fds[fd].size < WORD;
    if a.AClaimWrite? && a.fd == fd {
      WriteCountIff(s.fds[fd], |a.data|);
    }
    hide Spliced, PieceOf, SectorOf, DiskOk;
  }

  /** The offset after a claim and any number of steps. */
  lemma {:induction false} OffsetAfter(r: Run, i: nat, j: nat, fd: nat)
    requires IsRun(r) && Inv(r.states[0]) && i < j <= |r.acts| && fd < MAX_FDS && Claims(r, i, fd) &&
      Undisturbed(r, i, j, fd)
    ensures FdsOk(r.states[i]) && FdsOk(r.states[j])
    ensures var f, g := r.states[i].fds[fd], r.states[j].fds[fd];
      && g.inUse && g.startLba == f.startLba && g.size == f.size
      && f.offset + ClaimCount(r, i, fd) <= g.offset <= g.size
      && ((forall k :: i < k < j ==> !Claims(r, k, fd)) ==> g.offset == f.offset + ClaimCount(r, i, fd))
    decreases j
  {
    hide Step, Inv, FdsOk, Claims, ClaimCount, UndisturbedAt;
    InvFds(r, i);
    InvFds(r, j);
    if j == i + 1 {
      ClaimOpen(r, i, fd);
      FdStep(r, i, fd);
    } else {
      OffsetAfter(r, i, j - 1, fd);
      InvFds(r, j - 1);
      FdStep(r, j - 1, fd);
      var q := j - 1;
      assert (forall k :: i < k < j ==> !Claims(r, k, fd)) ==> !Claims(r, q, fd);
    }
  }

  lemma InvFds(r: Run, n: nat)
    requires IsRun(r) && Inv(r.states[0]) && n <= |r.acts|
    ensures Inv(r.states[n]) && FdsOk(r.states[n]) && |r.states[n].fds| == MAX_FDS
  {
    hide Step;
    RunInv(r, n);
  }

  lemma ClaimOpen(r: Run, i: nat, fd: nat)
    requires IsRun(r) && i < |r.acts| && Claims(r, i, fd)
    ensures fd < |r.states[i].fds| && r.states[i].fds[fd].inUse
  {
  }

  /** Over every run, whoever claims: two claims on an open descriptor are disjoint, the later one comes after the
      earlier one in the same file and inside it, and it follows directly if there is none in between. */
  lemma ClaimsConsecutive(r: Run, i: nat, j: nat, fd: nat)
    requires IsRun(r) && Inv(r.states[0]) && i < j < |r.acts| && fd < MAX_FDS
    requires Claims(r, i, fd) && Claims(r, j, fd) && Undisturbed(r, i, j + 1, fd)
    ensures FdsOk(r.states[i]) && FdsOk(r.states[j])
    ensures r.states[j].fds[fd].startLba == r.states[i].fds[fd].startLba &&
      r.states[j].fds[fd].size == r.states[i].fds[fd].size
    ensures ClaimStart(r, i, fd) + ClaimCount(r, i, fd) <= ClaimStart(r, j, fd)
    ensures ClaimStart(r, j, fd) + ClaimCount(r, j, fd) <= r.states[i].fds[fd].size
    ensures (forall k :: i < k < j ==> !Claims(r, k, fd)) ==>
      ClaimStart(r, j, fd) == ClaimStart(r, i, fd) + ClaimCount(r, i, fd)
  {
    hide Step, Inv, FdsOk, ClaimCount, UndisturbedAt;
    OffsetAfter(r, i, j, fd);
    OffsetAfter(r, j, j + 1, fd);
  }

  // ----- what a read returns

  /** The byte was on the disk at some moment between states `i` and `n` of the run. */
  ghost predicate SeenAt(r: Run, i: nat, n: nat, a: nat, b: Byte)
    requires n < |r.states|
  {
    exists m :: i <= m < n && DiskOk(r.states[m].disk) && At(r.states[m].disk, a) == b
  }

  /** A read that claimed at step `i` is under way in state `n`, and has not returned since. */
  ghost predicate ReadsFrom(r: Run, c: nat, i: nat, n: nat)
    requires IsRun(r) && i < n <= |r.acts|
  {
    && r.cpus[i] == c && r.acts[i].AClaimRead? && Open(r.states[i].fds, r.acts[i].fd)
    && forall k :: i < k < n ==> !(r.cpus[k] == c && r.acts[k].AReturn?)
  }

  lemma SeenLater(r: Run, i: nat, n: nat, n': nat, a: nat, b: Byte)
    requires n <= n' < |r.states| && SeenAt(r, i, n, a, b)
    ensures SeenAt(r, i, n', a, b)
  {
  }

  /** The bytes of one piece. */
  lemma PieceBytes(d: Disk, lba: nat, off: nat, buf: seq<Byte>, n: nat, k: nat)
    requires DiskOk(d) && k < n && (off + |buf|) % SECTOR + n <= SECTOR
    ensures var at := off + |buf|;
      (buf + d[lba + at / SECTOR][at % SECTOR..at % SECTOR + n])[|buf| + k] == At(d, lba * SECTOR + off + |buf| + k)
  {
    var at := off + |buf|;
    assert (lba * SECTOR + at + k) / SECTOR == lba + at / SECTOR && (lba * SECTOR + at + k) % SECTOR == at % SECTOR + k;
  }

  /** What a CPU in a read can do. */
  lemma ReadingSteps(s: Sys, s': Sys, c: nat, a: Action)
    requires Step(s, s', c, a) && c in s.pc && s.pc[c].Reading?
    ensures a.AReturn? || ReadPiece(s, s', c)
  {
  }

  /** Over every run: a read returns the next bytes of the file, as many as asked for and left, and every byte is one
      that the disk held at its place after the claim. */
  lemma {:induction false} ReadSees(r: Run, c: nat, i: nat, n: nat)
    requires IsRun(r) && Inv(r.states[0]) && i < n <= |r.acts| && ReadsFrom(r, c, i, n)
    ensures c in r.states[n].pc && r.states[n].pc[c].Reading? && FdsOk(r.states[i])
    ensures var f, p := r.states[i].fds[r.acts[i].fd], r.states[n].pc[c];
      && p.lba == f.startLba && p.off == f.offset && p.count == ReadCount(f, r.acts[i].count) && |p.buf| <= p.count
      && forall k :: 0 <= k < |p.buf| ==> SeenAt(r, i, n, p.lba * SECTOR + p.off + k, p.buf[k])
    decreases n
  {
    hide Inv, Step, SeenAt, FdsOk, DiskOk, Open;
    InvFds(r, i);
    assert Step(r.states[n - 1], r.states[n], r.cpus[n - 1], r.acts[n - 1]);
    if n == i + 1 {
      ReadBegins(r.states[i], r.states[n], c, r.acts[i]);
    } else {
      ReadSees(r, c, i, n - 1);
      var s, s', p := r.states[n - 1], r.states[n], r.states[n - 1].pc[c];
      forall k | 0 <= k < |p.buf|
        ensures SeenAt(r, i, n, p.lba * SECTOR + p.off + k, p.buf[k])
      {
        SeenLater(r, i, n - 1, n, p.lba * SECTOR + p.off + k, p.buf[k]);
      }
      if r.cpus[n - 1] == c {
        ReadingSteps(s, s', c, r.acts[n - 1]);
        ReadOn(r, c, i, n);
      } else {
        OtherPc(s, s', r.cpus[n - 1], r.acts[n - 1], c);
      }
    }
  }

  lemma ReadBegins(s: Sys, s': Sys, c: nat, a: Action)
    requires Step(s, s', c, a) && a.AClaimRead? && Open(s.fds, a.fd) && FdsOk(s)
    ensures c in s'.pc && s'.pc[c] == Reading(s.fds[a.fd].startLba, s.fds[a.fd].offset, ReadCount(s.fds[a.fd], a.count),
                                              [])
    ensures s.fds[a.fd].offset <= s.fds[a.fd].size
  {
  }

  /** One piece is read from the disk. */
  lemma PieceRead(s: Sys, s': Sys, c: nat)
    requires ReadPiece(s, s', c)
    ensures DiskOk(s.disk) && c in s.pc && s.pc[c].Reading? && c in s'.pc && s'.pc[c].Reading?
    ensures var p, q := s.pc[c], s'.pc[c];
      && q == p.(buf := q.buf) && |p.buf| <= |q.buf| <= q.count && q.buf[..|p.buf|] == p.buf
      && forall k :: |p.buf| <= k < |q.buf| ==> q.buf[k] == At(s.disk, p.lba * SECTOR + p.off + k)
  {
    hide At, Piece;
    var d, p, q := s.disk, s.pc[c], s'.pc[c];
    var at := p.off + |p.buf|;
    var l := Piece(at, p.count - |p.buf|);
    assert q.buf == p.buf + d[p.lba + at / SECTOR][at % SECTOR..at % SECTOR + l];
    forall k | |p.buf| <= k < |q.buf|
      ensures q.buf[k] == At(d, p.lba * SECTOR + p.off + k)
    {
      PieceBytes(d, p.lba, p.off, p.buf, l, k - |p.buf|);
    }
  }

  /** One more piece. */
  lemma ReadOn(r: Run, c: nat, i: nat, n: nat)
    requires IsRun(r) && i < n - 1 && n <= |r.acts| && r.cpus[n - 1] == c && ReadPiece(r.states[n - 1], r.states[n], c)
    requires var p := r.states[n - 1].pc[c];
      |p.buf| <= p.count && forall k :: 0 <= k < |p.buf| ==> SeenAt(r, i, n, p.lba * SECTOR + p.off + k, p.buf[k])
    ensures var p, q := r.states[n - 1].pc[c], r.states[n].pc[c];
      && q == p.(buf := q.buf) && |q.buf| <= q.count
      && forall k :: 0 <= k < |q.buf| ==> SeenAt(r, i, n, q.lba * SECTOR + q.off + k, q.buf[k])
  {
    hide Step, DiskOk, At, ReadPiece;
    PieceRead(r.states[n - 1], r.states[n], c);
    var p, q := r.states[n - 1].pc[c], r.states[n].pc[c];
    forall k | |p.buf| <= k < |q.buf|
      ensures SeenAt(r, i, n, q.lba * SECTOR + q.off + k, q.buf[k])
    {
      assert At(r.states[n - 1].disk, p.lba * SECTOR + p.off + k) == q.buf[k];
    }
    hide SeenAt;
    forall k | 0 <= k < |p.buf|
      ensures q.buf[k] == p.buf[k]
    {
      assert q.buf[..|p.buf|][k] == q.buf[k];
    }
  }

  /** So a read whose bytes nobody changes meanwhile returns exactly its slice of the disk. */
  lemma ReadSlice(r: Run, c: nat, i: nat, n: nat)
    requires IsRun(r) && Inv(r.states[0]) && i < n <= |r.acts| && ReadsFrom(r, c, i, n)
    requires var f := r.states[i].fds[r.acts[i].fd];
      FdsOk(r.states[i]) && Open(r.states[i].fds, r.acts[i].fd) &&
      Quiet(r, i, n, f.startLba * SECTOR + f.offset, ReadCount(f, r.acts[i].count))
    ensures c in r.states[n].pc && r.states[n].pc[c].Reading? && DiskOk(r.states[n].disk)
    ensures var f, p := r.states[i].fds[r.acts[i].fd], r.states[n].pc[c];
      p.buf == Bytes(r.states[n].disk, f.startLba * SECTOR + f.offset, |p.buf|) &&
      |p.buf| <= ReadCount(f, r.acts[i].count)
  {
    hide Inv, Step, FdsOk, DiskOk;
    ReadSees(r, c, i, n);
    RunDisk(r, n);
    var f, p := r.states[i].fds[r.acts[i].fd], r.states[n].pc[c];
    var base := f.startLba * SECTOR + f.offset;
    var want := Bytes(r.states[n].disk, base, |p.buf|);
    forall k | 0 <= k < |p.buf|
      ensures p.buf[k] == want[k]
    {
      assert SeenAt(r, i, n, base + k, p.buf[k]);
      var m :| i <= m < n && DiskOk(r.states[m].disk) && At(r.states[m].disk, base + k) == p.buf[k];
      assert QuietAt(r, m, n, base + k);
    }
  }

  lemma RunDisk(r: Run, n: nat)
    requires IsRun(r) && Inv(r.states[0]) && n <= |r.acts|
    ensures DiskOk(r.states[n].disk)
  {
    hide Step;
    RunInv(r, n);
  }

  /** The bytes are the same on the disk in all states from `i` to `n`. */
  ghost predicate Quiet(r: Run, i: nat, n: nat, base: nat, count: nat)
    requires n < |r.states|
  {
    forall m: nat, a: nat :: i <= m < n && base <= a < base + count ==> QuietAt(r, m, n, a)
  }

  ghost predicate QuietAt(r: Run, m: nat, n: nat, a: nat)
    requires m <= n < |r.states|
  {
    DiskOk(r.states[m].disk) && DiskOk(r.states[n].disk) ==> At(r.states[m].disk, a) == At(r.states[n].disk, a)
  }
}
