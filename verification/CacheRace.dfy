/** The one-sector cache and the sectors under interleaving: when the cache stays true to the disk, when a lookup
    returns the right sector, and when a write keeps what others wrote to its sector. */
module CacheRace {
  import opened Common
  import opened DiskImage
  import opened FileMachine

  /** What the cache names it holds. */
  ghost predicate Coherent(s: Sys)
    requires DiskOk(s.disk)
  {
    s.cache.valid ==> s.cache.data == s.disk[s.cache.lba]
  }

  // ----- one step

  /** What a step from a coherent state must meet for the cache to stay coherent. */
  ghost predicate StaysTrue(s: Sys, p: Pc)
    requires DiskOk(s.disk)
  {
    match p
    case Filling(l) => !s.cache.valid || s.disk[l] == s.disk[s.cache.lba]
    case Naming(l) => !s.cache.valid || s.disk[l] == s.cache.data
    case Validating(_) => s.cache.data == s.disk[s.cache.lba]
    case Splicing(j, sector) =>
      |sector| == SECTOR && j.done <= |j.data| && s.cache.valid && s.cache.lba == SectorOf(j) ==>
      s.cache.data == Spliced(j, sector)
    case PuttingData(_, _, bytes) => !s.cache.valid || bytes == s.disk[s.cache.lba]
    case PuttingLba(_, l) => !s.cache.valid || s.disk[l] == s.cache.data
    case PuttingValid(_, _) => s.cache.data == s.disk[s.cache.lba]
    case _ => true
  }

  /** Exactly then it does. The first two lines are the window in `cached_read_sector`: the data are there, the number
      of the sector is not; the fourth and fifth are the one in `cached_write_sector`. */
  lemma StepCoherentIff(s: Sys, s': Sys, c: nat, a: Action)
    requires Inv(s) && Step(s, s', c, a) && Coherent(s)
    ensures Inv(s') && c in s.pc && (Coherent(s') <==> StaysTrue(s, s.pc[c]))
  {
    StepInv(s, s', c, a);
    Acts(s, s', c, a);
    assert PcOk(s.pc[c]);
    hide FdsOk, Spliced, SectorOf, Piece, PieceOf, At32;
  }

  // ----- one CPU at a time in the two functions

  /** The CPU is inside `cached_read_sector` or `cached_write_sector`. */
  predicate InSection(p: Pc) {
    match p
    case Idle => false
    case Reading(_, _, _, _) => false
    case Writing(_) => false
    case Splicing(_, _) => false
    case Found(_, _) => false
    case _ => true
  }

  ghost predicate Exclusive(s: Sys) {
    forall c, d :: c in s.pc && d in s.pc && InSection(s.pc[c]) && InSection(s.pc[d]) ==> c == d
  }

  /** How far the cache is behind the disk while a CPU is in a section. */
  ghost predicate Tuned(s: Sys, p: Pc)
    requires DiskOk(s.disk)
  {
    match p
    case Hitting(l) => Coherent(s) && s.cache.valid && s.cache.lba == l
    case CopyingOut(l) => Coherent(s) && s.cache.valid && s.cache.lba == l
    case Naming(l) => s.cache.data == s.disk[l]
    case Validating(l) => s.cache.data == s.disk[l] && s.cache.lba == l
    case PuttingData(_, l, bytes) => bytes == s.disk[l]
    case PuttingLba(_, l) => s.cache.data == s.disk[l]
    case PuttingValid(_, l) => s.cache.data == s.disk[l] && s.cache.lba == l
    case _ => Coherent(s)
  }

  ghost predicate AllTuned(s: Sys)
    requires DiskOk(s.disk)
  {
    && (forall c :: c in s.pc && InSection(s.pc[c]) ==> Tuned(s, s.pc[c]))
    && ((forall c :: c in s.pc ==> !InSection(s.pc[c])) ==> Coherent(s))
  }

  /** Another CPU's step outside the sections touches neither the cache nor the disk. */
  lemma OutsideStep(s: Sys, s': Sys, d: nat, a: Action)
    requires Step(s, s', d, a) && d in s'.pc && !InSection(s'.pc[d]) && d in s.pc && !InSection(s.pc[d])
    ensures s'.cache == s.cache && s'.disk == s.disk
  {
  }

  /** A step of the CPU in the section, or into it from a coherent state. */
  lemma SectionStep(s: Sys, s': Sys, c: nat, a: Action)
    requires Inv(s) && Inv(s') && Step(s, s', c, a) && c in s.pc && c in s'.pc
    requires if InSection(s.pc[c]) then Tuned(s, s.pc[c]) else Coherent(s)
    ensures if InSection(s'.pc[c]) then Tuned(s', s'.pc[c]) else Coherent(s')
    ensures a.ACopyOut? ==> s'.pc[c] == Found(s.pc[c].at, s.disk[s.pc[c].at])
  {
    Disks(s, s');
    hide Inv, FdsOk, Spliced, SectorOf, Piece, PieceOf, At32, ReadCount, WriteCount, Advanced;
  }

  lemma TunedStep(s: Sys, s': Sys, c: nat, a: Action)
    requires Inv(s) && Step(s, s', c, a) && AllTuned(s) && Exclusive(s) && Exclusive(s')
    ensures Inv(s') && AllTuned(s') && c in s.pc && c in s'.pc
    ensures a.ACopyOut? ==> s'.pc[c] == Found(s.pc[c].at, s.disk[s.pc[c].at])
  {
    hide Step, Tuned, Coherent;
    StepInv(s, s', c, a);
    Acts(s, s', c, a);
    hide Inv;
    Disks(s, s');
    forall d | d in s.pc && d != c
      ensures s'.pc[d] == s.pc[d]
    {
      OtherPc(s, s', c, a, d);
    }
    if d :| d in s.pc && d != c && InSection(s.pc[d]) {
      OutsideStep(s, s', c, a);
      NoCopyOut(s, s', c, a);
      Untouched(s, s');
    } else {
      SectionStep(s, s', c, a);
    }
  }

  lemma Disks(s: Sys, s': Sys)
    requires Inv(s) && Inv(s')
    ensures DiskOk(s.disk) && DiskOk(s'.disk)
  {
  }

  lemma NoCopyOut(s: Sys, s': Sys, c: nat, a: Action)
    requires Step(s, s', c, a) && c in s.pc && !InSection(s.pc[c])
    ensures !a.ACopyOut?
  {
  }

  lemma Untouched(s: Sys, s': Sys)
    requires DiskOk(s.disk) && s'.cache == s.cache && s'.disk == s.disk
    ensures Coherent(s') == Coherent(s) && forall p :: Tuned(s', p) == Tuned(s, p)
  {
  }

  /** Over every run in which no two CPUs are in the two functions at once: whenever nobody is in them the cache is
      coherent, and every lookup returns the sector as the disk has it. */
  lemma {:induction false} ExclusiveCoherent(r: Run, n: nat)
    requires IsRun(r) && Inv(r.states[0]) && AllTuned(r.states[0]) && n <= |r.acts|
    requires forall i :: 0 <= i <= n ==> Exclusive(r.states[i])
    ensures Inv(r.states[n]) && AllTuned(r.states[n])
    ensures n > 0 && r.acts[n - 1].ACopyOut? ==>
      var s, c := r.states[n - 1], r.cpus[n - 1];
      c in s.pc && (s.pc[c].Hitting? || s.pc[c].CopyingOut?) && s.pc[c].at in s.disk &&
      c in r.states[n].pc && r.states[n].pc[c] == Found(s.pc[c].at, s.disk[s.pc[c].at])
  {
    hide Inv, Step, AllTuned, Exclusive;
    if n > 0 {
      ExclusiveCoherent(r, n - 1);
      var s, s', c, a := r.states[n - 1], r.states[n], r.cpus[n - 1], r.acts[n - 1];
      assert Step(s, s', c, a);
      TunedStep(s, s', c, a);
      if a.ACopyOut? {
        CopiesOut(s, s', c);
        Disks(s, s');
        hide DiskOk;
      }
    }
  }

  lemma CopiesOut(s: Sys, s': Sys, c: nat)
    requires Inv(s) && Step(s, s', c, ACopyOut)
    ensures c in s.pc && (s.pc[c].Hitting? || s.pc[c].CopyingOut?) && s.pc[c].at in s.disk
  {
  }

  // ----- two lookups at once

  /** Some run leads from one state to the other. */
  ghost predicate Reaches(s: Sys, t: Sys) {
    exists r: Run :: IsRun(r) && r.states[0] == s && r.states[|r.acts|] == t
  }

  lemma ReachesItself(s: Sys)
    ensures Reaches(s, s)
  {
    assert IsRun(Run([s], [], []));
  }

  lemma ReachesOn(s: Sys, m: Sys, t: Sys, c: nat, a: Action)
    requires Reaches(s, m) && Step(m, t, c, a)
    ensures Reaches(s, t)
  {
    hide Step;
    var r: Run :| IsRun(r) && r.states[0] == s && r.states[|r.acts|] == m;
    var r' := Run(r.states + [t], r.cpus + [c], r.acts + [a]);
    assert IsRun(r') && r'.states[0] == s && r'.states[|r'.acts|] == t;
  }

  ghost function Going(s: Sys, cache: Cache, c: nat, p: Pc): Sys {
    s.(cache := cache, pc := s.pc[c := p])
  }

  lemma GoesLook(s: Sys, t: Sys, c: nat, at: nat)
    requires Reaches(s, t) && c in t.pc && t.pc[c] == Idle
    ensures Reaches(s, Going(t, t.cache, c, Looking(at)))
  {
    hide Reaches;
    ReachesOn(s, t, Going(t, t.cache, c, Looking(at)), c, ALook(at));
  }

  lemma GoesCompare(s: Sys, t: Sys, c: nat, at: nat)
    requires Reaches(s, t) && c in t.pc && t.pc[c] == Looking(at)
    ensures Reaches(s, Going(t, t.cache, c, if t.cache.valid && t.cache.lba == at then Hitting(at) else Filling(at)))
  {
    hide Reaches;
    ReachesOn(s, t, Going(t, t.cache, c, if t.cache.valid && t.cache.lba == at then Hitting(at) else Filling(at)), c,
              ACompare);
  }

  lemma GoesFill(s: Sys, t: Sys, c: nat, at: nat)
    requires Reaches(s, t) && c in t.pc && t.pc[c] == Filling(at) && DiskOk(t.disk)
    ensures Reaches(s, Going(t, t.cache.(data := t.disk[at]), c, Naming(at)))
  {
    hide Reaches;
    ReachesOn(s, t, Going(t, t.cache.(data := t.disk[at]), c, Naming(at)), c, AFill);
  }

  lemma GoesName(s: Sys, t: Sys, c: nat, at: nat)
    requires Reaches(s, t) && c in t.pc && t.pc[c] == Naming(at)
    ensures Reaches(s, Going(t, t.cache.(lba := at), c, Validating(at)))
  {
    hide Reaches;
    ReachesOn(s, t, Going(t, t.cache.(lba := at), c, Validating(at)), c, ANameSector);
  }

  lemma GoesOut(s: Sys, t: Sys, c: nat, at: nat)
    requires Reaches(s, t) && c in t.pc && (t.pc[c] == Hitting(at) || t.pc[c] == CopyingOut(at))
    ensures Reaches(s, Going(t, t.cache, c, Found(at, t.cache.data)))
  {
    hide Reaches;
    ReachesOn(s, t, Going(t, t.cache, c, Found(at, t.cache.data)), c, ACopyOut);
  }

  /** From naming the sector to the return, with nobody in between. */
  lemma GoesHome(s: Sys, t: Sys, c: nat, at: nat)
    requires Reaches(s, t) && c in t.pc && t.pc[c] == Validating(at)
    ensures Reaches(s, Going(t, t.cache.(valid := true), c, Idle))
  {
    hide Reaches;
    var t1 := Going(t, t.cache.(valid := true), c, CopyingOut(at));
    ReachesOn(s, t, t1, c, AValidate);
    GoesOut(s, t1, c, at);
    var t2 := Going(t1, t1.cache, c, Found(at, t1.cache.data));
    var t3 := Going(t2, t2.cache, c, Idle);
    ReachesOn(s, t2, t3, c, AReturn);
    assert t3.pc == t.pc[c := Idle];
  }

  /** Two idle CPUs and a coherent cache that names `m`. CPU 0 reads `l` into the cache but has yet to name it when CPU
      1 looks for `m`: it is given the bytes of `l`, which are wrong exactly if the two sectors differ. */
  lemma WrongHitIff(s: Sys, l: nat, m: nat) returns (t: Sys)
    requires Inv(s) && 0 in s.pc && 1 in s.pc && s.pc[0] == Idle && s.pc[1] == Idle
    requires s.cache.valid && s.cache.lba == m && l != m && Coherent(s)
    ensures Reaches(s, t) && t.disk == s.disk && 1 in t.pc && t.pc[1].Found? && t.pc[1].at == m
    ensures t.pc[1].bytes != s.disk[m] <==> s.disk[l] != s.disk[m]
  {
    hide Inv, FdsOk, Coherent, Reaches;
    assert DiskOk(s.disk) by { InvDisk(s); }
    ReachesItself(s);
    GoesLook(s, s, 0, l);
    t := Going(s, s.cache, 0, Looking(l));
    GoesCompare(s, t, 0, l);
    t := Going(t, s.cache, 0, Filling(l));
    GoesFill(s, t, 0, l);
    t := Going(t, s.cache.(data := s.disk[l]), 0, Naming(l));
    GoesLook(s, t, 1, m);
    t := Going(t, t.cache, 1, Looking(m));
    GoesCompare(s, t, 1, m);
    t := Going(t, t.cache, 1, Hitting(m));
    GoesOut(s, t, 1, m);
    t := Going(t, t.cache, 1, Found(m, t.cache.data));
  }

  lemma InvDisk(s: Sys)
    requires Inv(s)
    ensures DiskOk(s.disk)
  {
  }

  /** Both CPUs miss; CPU 0 reads `l`, CPU 1 reads `m` over it. */
  lemma BothMiss(s: Sys, l: nat, m: nat) returns (t: Sys)
    requires Inv(s) && 0 in s.pc && 1 in s.pc && s.pc[0] == Idle && s.pc[1] == Idle && !s.cache.valid
    ensures DiskOk(s.disk) && Reaches(s, t)
    ensures t == s.(cache := s.cache.(data := s.disk[m]), pc := s.pc[0 := Naming(l)][1 := Naming(m)])
  {
    hide Inv, FdsOk, Reaches;
    assert DiskOk(s.disk) by { InvDisk(s); }
    ReachesItself(s);
    GoesLook(s, s, 0, l);
    t := Going(s, s.cache, 0, Looking(l));
    GoesCompare(s, t, 0, l);
    t := Going(t, s.cache, 0, Filling(l));
    GoesLook(s, t, 1, m);
    t := Going(t, s.cache, 1, Looking(m));
    GoesCompare(s, t, 1, m);
    t := Going(t, s.cache, 1, Filling(m));
    GoesFill(s, t, 0, l);
    t := Going(t, t.cache.(data := s.disk[l]), 0, Naming(l));
    GoesFill(s, t, 1, m);
    t := Going(t, t.cache.(data := s.disk[m]), 1, Naming(m));
    assert t.pc == s.pc[0 := Naming(l)][1 := Naming(m)];
  }

  /** They name the cache in the other order and finish. */
  lemma BothFinish(s: Sys, u: Sys, l: nat, m: nat) returns (t: Sys)
    requires Reaches(s, u) && 0 in u.pc && 1 in u.pc && u.pc[0] == Naming(l) && u.pc[1] == Naming(m)
    ensures Reaches(s, t) && t == u.(cache := Cache(l, u.cache.data, true), pc := u.pc[0 := Idle][1 := Idle])
  {
    hide Reaches;
    GoesName(s, u, 1, m);
    t := Going(u, u.cache.(lba := m), 1, Validating(m));
    GoesName(s, t, 0, l);
    t := Going(t, t.cache.(lba := l), 0, Validating(l));
    GoesHome(s, t, 0, l);
    t := Going(t, t.cache.(valid := true), 0, Idle);
    GoesHome(s, t, 1, m);
    t := Going(t, t.cache.(valid := true), 1, Idle);
    assert t.pc == u.pc[0 := Idle][1 := Idle];
  }

  /** Two lookups that miss at the same time can leave the cache holding `m` under the number of `l` with nobody in
      either function: it is coherent then exactly if the two sectors have the same bytes. */
  lemma StaysWrongIff(s: Sys, l: nat, m: nat) returns (t: Sys)
    requires Inv(s) && 0 in s.pc && 1 in s.pc && s.pc[0] == Idle && s.pc[1] == Idle && !s.cache.valid
    ensures Reaches(s, t) && t.pc == s.pc && t.disk == s.disk && t.cache.valid && DiskOk(s.disk)
    ensures Coherent(t) <==> s.disk[l] == s.disk[m]
  {
    hide Inv, FdsOk, Reaches, DiskOk;
    var u := BothMiss(s, l, m);
    t := BothFinish(s, u, l, m);
    assert t.pc == s.pc;
  }

  // ----- two writes to one sector

  /** The byte lies in the piece the CPU is about to write. */
  predicate InPiece(j: Job, a: nat)
    requires j.done <= |j.data|
  {
    a / SECTOR == SectorOf(j) && At32(j) % SECTOR <= a % SECTOR < At32(j) % SECTOR + PieceOf(j)
  }

  /** The disk after the step, byte by byte. */
  lemma PutBytes(s: Sys, s': Sys, c: nat, a: nat)
    requires DiskOk(s.disk) && PutSector(s, s', c) && PcOk(s.pc[c])
    ensures DiskOk(s'.disk)
    ensures var j, l := s.pc[c].job, SectorOf(s.pc[c].job);
      At(s'.disk, a) ==
      if InPiece(j, a) then j.data[j.done + (a % SECTOR - At32(j) % SECTOR)]
      else if a / SECTOR == l then s.pc[c].sector[a % SECTOR] else At(s.disk, a)
  {
    hide SectorOf, At32, PieceOf;
  }

  /** The step that writes a sector back puts the piece on the disk; every other byte stays as it is exactly if the
      sector on the disk, outside the piece, is still as it was read. */
  lemma PutKeepsIff(s: Sys, s': Sys, c: nat)
    requires Inv(s) && PutSector(s, s', c)
    ensures PcOk(s.pc[c]) && DiskOk(s'.disk)
    ensures var j := s.pc[c].job;
      && (forall a: nat :: InPiece(j, a) ==> At(s'.disk, a) == j.data[j.done + (a % SECTOR - At32(j) % SECTOR)])
      && ((forall a: nat :: !InPiece(j, a) ==> At(s'.disk, a) == At(s.disk, a)) <==>
          (forall a: nat :: !InPiece(j, a) && a / SECTOR == SectorOf(j) ==>
           At(s.disk, a) == s.pc[c].sector[a % SECTOR]))
  {
    assert PcOk(s.pc[c]);
    assert DiskOk(s.disk) by { InvDisk(s); }
    PutBytes(s, s', c, 0);
    hide Inv, SectorOf, At32, PieceOf, At, DiskOk;
    forall a: nat {
      PutBytes(s, s', c, a);
    }
    hide InPiece, PutSector, Spliced;
  }

  /** Step `k` writes the sector back. */
  ghost predicate Stores(r: Run, k: nat, l: nat)
    requires IsRun(r) && k < |r.acts|
  {
    r.acts[k].APutSector? && r.cpus[k] in r.states[k].pc && r.states[k].pc[r.cpus[k]].Splicing? &&
    SectorOf(r.states[k].pc[r.cpus[k]].job) == l
  }

  lemma OtherSector(s: Sys, s': Sys, c: nat, a: Action, l: nat)
    requires Step(s, s', c, a) && !(a.APutSector? && c in s.pc && s.pc[c].Splicing? && SectorOf(s.pc[c].job) == l)
    requires DiskOk(s.disk)
    ensures l in s'.disk && s'.disk[l] == s.disk[l]
  {
    hide Spliced, SectorOf, Piece, PieceOf, At32;
  }

  /** Over every run: if nobody writes the sector back between a writer's read of it and its own write, the disk still
      has what the writer read, so nothing but its piece changes. */
  lemma {:induction false} NoLostUpdate(r: Run, c: nat, i: nat, n: nat)
    requires IsRun(r) && Inv(r.states[0]) && i < n <= |r.acts| && r.cpus[i] == c && r.acts[i].AFetchSector?
    requires forall k :: i < k < n ==> r.cpus[k] != c
    requires c in r.states[i].pc && r.states[i].pc[c].Writing?
    requires forall k :: i < k < n ==> !Stores(r, k, SectorOf(r.states[i].pc[c].job))
    ensures c in r.states[n].pc && DiskOk(r.states[n].disk)
    ensures var l := SectorOf(r.states[i].pc[c].job);
      r.states[n].pc[c] == Splicing(r.states[i].pc[c].job, r.states[n].disk[l])
    decreases n
  {
    hide Inv, Step, DiskOk, SectorOf;
    assert Step(r.states[n - 1], r.states[n], r.cpus[n - 1], r.acts[n - 1]);
    DiskAlways(r, n);
    DiskAlways(r, n - 1);
    if n == i + 1 {
      Fetched(r.states[i], r.states[n], c);
    } else {
      NoLostUpdate(r, c, i, n - 1);
      OtherPc(r.states[n - 1], r.states[n], r.cpus[n - 1], r.acts[n - 1], c);
      assert !Stores(r, n - 1, SectorOf(r.states[i].pc[c].job));
      OtherSector(r.states[n - 1], r.states[n], r.cpus[n - 1], r.acts[n - 1], SectorOf(r.states[i].pc[c].job));
    }
  }

  /** What the writer read it still holds when it writes. */
  lemma {:induction false} StillHeld(r: Run, c: nat, i: nat, n: nat)
    requires IsRun(r) && Inv(r.states[0]) && i < n <= |r.acts| && r.cpus[i] == c && r.acts[i].AFetchSector?
    requires forall k :: i < k < n ==> r.cpus[k] != c
    ensures c in r.states[i].pc && r.states[i].pc[c].Writing? && c in r.states[n].pc && DiskOk(r.states[i].disk)
    ensures r.states[n].pc[c] ==
            Splicing(r.states[i].pc[c].job, r.states[i].disk[SectorOf(r.states[i].pc[c].job)])
    decreases n
  {
    hide Inv, Step, DiskOk, SectorOf;
    assert Step(r.states[n - 1], r.states[n], r.cpus[n - 1], r.acts[n - 1]);
    DiskAlways(r, i);
    if n == i + 1 {
      Fetched(r.states[i], r.states[n], c);
    } else {
      StillHeld(r, c, i, n - 1);
      OtherPc(r.states[n - 1], r.states[n], r.cpus[n - 1], r.acts[n - 1], c);
    }
  }

  /** No byte outside the piece differs; in the second form, of the piece's sector. */
  ghost predicate SameOutside(j: Job, d: Disk, d': Disk)
    requires DiskOk(d) && DiskOk(d') && j.done <= |j.data|
  {
    forall a: nat :: !InPiece(j, a) ==> At(d', a) == At(d, a)
  }

  ghost predicate SectorSame(j: Job, d: Disk, d': Disk)
    requires DiskOk(d) && DiskOk(d') && j.done <= |j.data|
  {
    forall a: nat :: !InPiece(j, a) && a / SECTOR == SectorOf(j) ==> At(d', a) == At(d, a)
  }

  /** Over every run: a writer that reads its sector in step `i` and writes it back in step `n` changes no byte but
      those of its piece exactly if nobody has changed another byte of that sector in between. */
  lemma UpdateKeepsIff(r: Run, c: nat, i: nat, n: nat)
    requires IsRun(r) && Inv(r.states[0]) && i < n < |r.acts| && r.cpus[i] == c && r.acts[i].AFetchSector?
    requires r.cpus[n] == c && r.acts[n].APutSector? && forall k :: i < k < n ==> r.cpus[k] != c
    ensures c in r.states[i].pc && r.states[i].pc[c].Writing? && PcOk(r.states[i].pc[c])
    ensures DiskOk(r.states[i].disk) && DiskOk(r.states[n].disk) && DiskOk(r.states[n + 1].disk)
    ensures var j := r.states[i].pc[c].job;
      && (forall a: nat :: InPiece(j, a) ==>
                             At(r.states[n + 1].disk, a) == j.data[j.done + (a % SECTOR - At32(j) % SECTOR)])
      && (SameOutside(j, r.states[n].disk, r.states[n + 1].disk) <==>
          SectorSame(j, r.states[i].disk, r.states[n].disk))
  {
    hide Inv, DiskOk, SectorOf, InPiece;
    RunInv(r, i);
    RunInv(r, n);
    DiskAlways(r, i);
    DiskAlways(r, n);
    StillHeld(r, c, i, n);
    InvPc(r.states[i], c);
    assert Step(r.states[n], r.states[n + 1], c, r.acts[n]);
    PutKeepsIff(r.states[n], r.states[n + 1], c);
  }

  lemma InvPc(s: Sys, c: nat)
    requires Inv(s) && c in s.pc
    ensures PcOk(s.pc[c])
  {
  }

  lemma DiskAlways(r: Run, n: nat)
    requires IsRun(r) && Inv(r.states[0]) && n <= |r.acts|
    ensures DiskOk(r.states[n].disk)
  {
    hide Step;
    RunInv(r, n);
  }

  lemma Fetched(s: Sys, s': Sys, c: nat)
    requires Step(s, s', c, AFetchSector) && DiskOk(s.disk)
    ensures c in s.pc && s.pc[c].Writing? && c in s'.pc && s'.disk == s.disk
    ensures s'.pc[c] == Splicing(s.pc[c].job, s.disk[SectorOf(s.pc[c].job)])
  {
    hide SectorOf;
  }

  /** Two one-byte writes on one descriptor claim neighbouring bytes of one sector; both CPUs read the sector before
      either writes it back. In the end the second byte is on the disk, and the first one is exactly if it was there
      before. */
  lemma LostUpdateIff(s: Sys, x: Byte, y: Byte) returns (t: Sys)
    requires Inv(s) && 0 in s.pc && 1 in s.pc && s.pc[0] == Idle && s.pc[1] == Idle
    requires Open(s.fds, 0) && s.fds[0].offset == 0 && s.fds[0].size >= 2
    ensures Reaches(s, t) && DiskOk(s.disk) && DiskOk(t.disk)
    ensures var a := s.fds[0].startLba * SECTOR;
      At(t.disk, a + 1) == y && (At(t.disk, a) == x <==> At(s.disk, a) == x)
  {
    hide Reaches, Inv;
    assert DiskOk(s.disk) && s.fds[0].size < WORD by { InvParts(s); }
    hide DiskOk;
    var f := s.fds[0];
    var l := f.startLba;
    var j0, j1 := Job(l, 0, [x], 0), Job(l, 1, [y], 0);
    var t1 := s.(fds := s.fds[0 := f.(offset := 1)], pc := s.pc[0 := Writing(j0)]);
    var t2 := t1.(fds := s.fds[0 := f.(offset := 2)], pc := t1.pc[1 := Writing(j1)]);
    Claimed(s, t1, t2, x, y);
    t := BothStore(s, t2, l, x, y);
  }

  lemma InvParts(s: Sys)
    requires Inv(s)
    ensures DiskOk(s.disk) && forall i :: 0 <= i < |s.fds| && s.fds[i].inUse ==> s.fds[i].offset <= s.fds[i].size < WORD
  {
  }

  lemma Claimed(s: Sys, t1: Sys, t2: Sys, x: Byte, y: Byte)
    requires 0 in s.pc && 1 in s.pc && s.pc[0] == Idle && s.pc[1] == Idle
    requires Open(s.fds, 0) && s.fds[0].offset == 0 && 2 <= s.fds[0].size < WORD
    requires var f := s.fds[0];
      && t1 == s.(fds := s.fds[0 := f.(offset := 1)], pc := s.pc[0 := Writing(Job(f.startLba, 0, [x], 0))])
      && t2 == t1.(fds := s.fds[0 := f.(offset := 2)], pc := t1.pc[1 := Writing(Job(f.startLba, 1, [y], 0))])
    ensures Reaches(s, t2)
  {
    hide Reaches;
    ReachesItself(s);
    assert [x][..1] == [x] && [y][..1] == [y];
    assert ClaimWrite(s, t1, 0, 0, [x]);
    ReachesOn(s, s, t1, 0, AClaimWrite(0, [x]));
    assert t2.fds == t1.fds[0 := t1.fds[0].(offset := 2)];
    assert ClaimWrite(t1, t2, 1, 0, [y]);
    ReachesOn(s, t1, t2, 1, AClaimWrite(0, [y]));
  }

  lemma BothStore(s: Sys, u: Sys, l: nat, x: Byte, y: Byte) returns (t: Sys)
    requires Reaches(s, u) && DiskOk(u.disk) && 0 in u.pc && 1 in u.pc
    requires u.pc[0] == Writing(Job(l, 0, [x], 0)) && u.pc[1] == Writing(Job(l, 1, [y], 0))
    ensures Reaches(s, t) && DiskOk(t.disk) && t.disk == u.disk[l := u.disk[l][1 := y]]
    ensures At(t.disk, l * SECTOR + 1) == y && At(t.disk, l * SECTOR) == At(u.disk, l * SECTOR)
  {
    hide Reaches;
    var j0, j1 := Job(l, 0, [x], 0), Job(l, 1, [y], 0);
    var d := u.disk[l];
    assert |d| == SECTOR;
    OneByte(j0, d, x);
    OneByte(j1, d, y);
    assert SectorOf(j0) == l && SectorOf(j1) == l;
    assert (l * SECTOR + 1) / SECTOR == l && (l * SECTOR + 1) % SECTOR == 1 && l * SECTOR / SECTOR == l &&
      l * SECTOR % SECTOR == 0;
    hide Spliced, PieceOf, SectorOf;
    var t1 := u.(pc := u.pc[0 := Splicing(j0, d)]);
    ReachesOn(s, u, t1, 0, AFetchSector);
    var t2 := t1.(pc := t1.pc[1 := Splicing(j1, d)]);
    ReachesOn(s, t1, t2, 1, AFetchSector);
    var t3 := t2.(disk := t2.disk[l := d[0 := x]], pc := t2.pc[0 := PuttingData(j0, l, d[0 := x])]);
    ReachesOn(s, t2, t3, 0, APutSector);
    t := t3.(disk := t3.disk[l := d[1 := y]], pc := t3.pc[1 := PuttingData(j1, l, d[1 := y])]);
    ReachesOn(s, t3, t, 1, APutSector);
  }

  lemma OneByte(j: Job, d: seq<Byte>, b: Byte)
    requires j.data == [b] && j.done == 0 && j.off < SECTOR && |d| == SECTOR
    ensures Spliced(j, d) == d[j.off := b]
  {
    assert PieceOf(j) == 1 && At32(j) % SECTOR == j.off;
    assert j.data[0..1] == [b];
  }
}
