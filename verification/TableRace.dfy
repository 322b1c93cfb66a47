/** Any number of CPUs asking for the same missing page table at once. Each step is one access to shared
    memory or one lock section, so runs are all interleavings, with other kernel code using the frame
    allocator and its own frames in between. */
module TableRace {
  import opened Paging
  import Frames

  datatype Pc =
    | Looking                          // next: read the entry
    | Allocating                       // it was clear; next: take a frame
    | Zeroing(f: nat, k: nat)          // next: clear word k, or recheck under the lock
    | Losing(f: nat, next: nat)        // somebody else was first; next: give the frame back
    | Done(result: nat)                // 0: no frame was left

  datatype Race = Race(
    slot: Entry,
    tables: map<nat, seq<Entry>>,
    pmm: Frames.Frames,
    others: set<nat>,                  // frames in use elsewhere
    won: map<nat, nat>,                // frames installed so far, and by which CPU
    hands: map<nat, nat>,              // frames taken by the call and not yet installed, and which CPU has each
    pc: map<nat, Pc>)

  // ----- steps

  ghost predicate Look(s: Race, s': Race, c: nat) {
    && c in s.pc && s.pc[c].Looking?
    && s' == s.(pc := s.pc[c := if s.slot.flags.present then Done(s.slot.frame) else Allocating])
  }

  ghost predicate Alloc(s: Race, s': Race, c: nat) {
    && c in s.pc && s.pc[c].Allocating?
    && s' == if s.pmm.free == [] then s.(pc := s.pc[c := Done(0)])
             else s.(pmm := Frames.Take(s.pmm), pc := s.pc[c := Zeroing(Frames.Top(s.pmm), 0)],
                     hands := s.hands[Frames.Top(s.pmm) := c])
  }

  ghost predicate Zero(s: Race, s': Race, c: nat) {
    && c in s.pc && s.pc[c].Zeroing? && s.pc[c].k < ENTRIES
    && var p := s.pc[c];
    && p.f in s.tables && p.k < |s.tables[p.f]|
    && s' == s.(tables := s.tables[p.f := s.tables[p.f][p.k := Clear]], pc := s.pc[c := Zeroing(p.f, p.k + 1)])
  }

  /** The section under `vmm_lock`. */
  ghost predicate Recheck(s: Race, s': Race, c: nat) {
    && c in s.pc && s.pc[c].Zeroing? && s.pc[c].k == ENTRIES
    && var f := s.pc[c].f;
    && s' == if s.slot.flags.present then s.(pc := s.pc[c := Losing(f, s.slot.frame)])
             else s.(slot := Entry(f, LINK), won := s.won[f := c], hands := s.hands - {f}, pc := s.pc[c := Done(f)])
  }

  ghost predicate GiveBack(s: Race, s': Race, c: nat) {
    && c in s.pc && s.pc[c].Losing?
    && s' == s.(pmm := Frames.Drop(s.pmm, s.pc[c].f), hands := s.hands - {s.pc[c].f},
                pc := s.pc[c := Done(s.pc[c].next)])
  }

  ghost predicate OtherTakes(s: Race, s': Race) {
    && s.pmm.free != []
    && s' == s.(pmm := Frames.Take(s.pmm), others := s.others + {Frames.Top(s.pmm)})
  }

  ghost predicate OtherShares(s: Race, s': Race, f: nat) {
    f in s.others && s' == s.(pmm := Frames.Share(s.pmm, f))
  }

  ghost predicate OtherDrops(s: Race, s': Race, f: nat) {
    && f in s.others && f in s.pmm.refs
    && s' == s.(pmm := Frames.Drop(s.pmm, f), others := if s.pmm.refs[f] == 1 then s.others - {f} else s.others)
  }

  ghost predicate OtherWrites(s: Race, s': Race, f: nat, words: seq<Entry>) {
    && f in s.others && |words| == ENTRIES
    && s' == s.(tables := s.tables[f := words])
  }

  datatype Action =
    | ALook | AAlloc | AZero | ARecheck | AGiveBack
    | AOtherTakes | AOtherShares(f: nat) | AOtherDrops(f: nat) | AOtherWrites(f: nat, words: seq<Entry>)

  /** One step: by CPU `c` inside the call, or by other code. */
  ghost predicate Step(s: Race, s': Race, c: nat, a: Action) {
    match a
    case ALook => Look(s, s', c)
    case AAlloc => Alloc(s, s', c)
    case AZero => Zero(s, s', c)
    case ARecheck => Recheck(s, s', c)
    case AGiveBack => GiveBack(s, s', c)
    case AOtherTakes => OtherTakes(s, s')
    case AOtherShares(f) => OtherShares(s, s', f)
    case AOtherDrops(f) => OtherDrops(s, s', f)
    case AOtherWrites(f, words) => OtherWrites(s, s', f, words)
  }

  // ----- the invariant

  /** Every referenced frame is in use elsewhere, installed, or in a hand, and only one of these. */
  ghost predicate Accounted(s: Race) {
    && Frames.Valid(s.pmm)
    && (forall f :: f in s.pmm.refs ==> (s.pmm.refs[f] > 0 <==> f in s.others || f in s.won || f in s.hands))
    && s.others !! s.won.Keys && s.others !! s.hands.Keys && s.won.Keys !! s.hands.Keys
    && s.others + s.won.Keys + s.hands.Keys <= s.pmm.refs.Keys
    && (forall f :: f in s.hands ==> s.pmm.refs[f] == 1)
  }

  ghost predicate ClearTo(s: Race, f: nat, k: nat) {
    k <= ENTRIES && f in s.tables && |s.tables[f]| == ENTRIES && forall i :: 0 <= i < k ==> s.tables[f][i] == Clear
  }

  /** What a CPU holds is its own, the words it has cleared are clear, and what it has returned or is about
      to return is what the slot holds. */
  ghost predicate PcOk(s: Race, c: nat)
    requires c in s.pc
  {
    match s.pc[c]
    case Looking => true
    case Allocating => true
    case Zeroing(f, k) => f in s.hands && s.hands[f] == c && ClearTo(s, f, k)
    case Losing(f, next) => f in s.hands && s.hands[f] == c && s.slot.flags.present && next == s.slot.frame
    case Done(r) => r != 0 ==> s.slot.flags.present && r == s.slot.frame
  }

  ghost predicate PcsOk(s: Race) {
    forall c :: c in s.pc ==> PcOk(s, c)
  }

  ghost predicate HandOk(s: Race, f: nat)
    requires f in s.hands
  {
    && f in s.tables && |s.tables[f]| == ENTRIES && s.hands[f] in s.pc
    && var p := s.pc[s.hands[f]]; (p.Zeroing? && p.f == f) || (p.Losing? && p.f == f)
  }

  ghost predicate HandsOk(s: Race) {
    forall f :: f in s.hands ==> HandOk(s, f)
  }

  /** Frames are 512 words, and the slot does not hold the null pointer. */
  ghost predicate SlotOk(s: Race) {
    (s.slot.flags.present ==> s.slot.frame != 0) && forall f :: f in s.pmm.refs ==>
    f in s.tables && |s.tables[f]| == ENTRIES
  }

  /** At most one table has been installed; it is in the slot, all zero, and its CPU has returned it. */
  ghost predicate OneWinner(s: Race) {
    s.won != map[] ==>
      && s.slot.flags == LINK && s.won.Keys == {s.slot.frame}
      && s.slot.frame in s.tables && s.tables[s.slot.frame] == ZeroTable()
      && s.won[s.slot.frame] in s.pc && s.pc[s.won[s.slot.frame]] == Done(s.slot.frame)
  }

  ghost predicate Inv(s: Race) {
    Accounted(s) && PcsOk(s) && HandsOk(s) && SlotOk(s) && OneWinner(s)
  }

  // ----- every step keeps it

  lemma PcsStep(s: Race, s': Race, c: nat)
    requires PcsOk(s) && c in s'.pc && PcOk(s', c) && s'.pc.Keys == s.pc.Keys
    requires forall d :: d in s.pc && d != c ==> s'.pc[d] == s.pc[d]
    requires forall f :: f in s.hands && s.hands[f] != c ==>
      f in s'.hands && s'.hands[f] == s.hands[f] && (f in s.tables ==> f in s'.tables && s'.tables[f] == s.tables[f])
    requires s.slot.flags.present ==> s'.slot == s.slot
    ensures PcsOk(s')
  {
    forall d | d in s.pc && d != c
      ensures PcOk(s', d)
    {
      assert PcOk(s, d);
    }
  }

  lemma AllocAccounted(s: Race, s': Race, c: nat)
    requires Accounted(s) && Alloc(s, s', c) && s.pmm.free != []
    ensures Accounted(s') && s'.pmm.refs.Keys == s.pmm.refs.Keys
    ensures Frames.Top(s.pmm) !in s.hands && Frames.Top(s.pmm) !in s.won && Frames.Top(s.pmm) in s.pmm.refs
  {
    Frames.TakeValid(s.pmm);
    hide Frames.Valid, Frames.Top;
  }

  lemma AllocInv(s: Race, s': Race, c: nat)
    requires Inv(s) && Alloc(s, s', c)
    ensures Inv(s')
  {
    hide Accounted, Frames.Top, Frames.Take, PcsOk;
    assert PcsOk(s) && c in s.pc ==> PcOk(s, c);
    if s.pmm.free != [] {
      AllocAccounted(s, s', c);
    } else {
      assert Accounted(s') by { SameAccounts(s, s'); }
    }
    PcsStep(s, s', c);
    hide PcOk;
  }

  lemma SameAccounts(s: Race, s': Race)
    requires Accounted(s) && s'.pmm == s.pmm && s'.others == s.others && s'.won == s.won && s'.hands == s.hands
    ensures Accounted(s')
  {
  }

  lemma LookInv(s: Race, s': Race, c: nat)
    requires Inv(s) && Look(s, s', c)
    ensures Inv(s')
  {
    hide Accounted, PcsOk;
    SameAccounts(s, s');
    PcsStep(s, s', c);
    hide PcOk;
  }

  lemma PcAt(s: Race, c: nat)
    requires PcsOk(s) && c in s.pc
    ensures PcOk(s, c)
  {
  }

  lemma HandApart(s: Race, f: nat)
    requires Accounted(s) && f in s.hands
    ensures f !in s.won && f !in s.others && f != 0 && f in s.pmm.refs && s.pmm.refs[f] == 1
  {
  }

  lemma ZeroInv(s: Race, s': Race, c: nat)
    requires Inv(s) && Zero(s, s', c)
    ensures Inv(s')
  {
    hide Accounted, PcsOk;
    PcAt(s, c);
    HandApart(s, s.pc[c].f);
    SameAccounts(s, s');
    PcsStep(s, s', c);
    hide PcOk;
  }

  lemma RecheckAccounted(s: Race, s': Race, f: nat, c: nat)
    requires Accounted(s) && f in s.hands && s'.pmm == s.pmm && s'.others == s.others
    requires s'.won == s.won[f := c] && s'.hands == s.hands - {f}
    ensures Accounted(s')
  {
    hide Frames.Valid;
  }

  lemma RecheckInv(s: Race, s': Race, c: nat)
    requires Inv(s) && Recheck(s, s', c)
    ensures Inv(s')
  {
    hide Accounted, PcsOk;
    PcAt(s, c);
    var f := s.pc[c].f;
    HandApart(s, f);
    if s.slot.flags.present {
      SameAccounts(s, s');
    } else {
      RecheckAccounted(s, s', f, c);
      assert s.tables[f] == ZeroTable();
    }
    PcsStep(s, s', c);
    hide PcOk;
  }

  lemma GiveBackAccounted(s: Race, s': Race, f: nat)
    requires Accounted(s) && f in s.hands && s'.pmm == Frames.Drop(s.pmm, f) && s'.others == s.others
    requires s'.won == s.won && s'.hands == s.hands - {f}
    ensures Accounted(s') && s'.pmm.refs.Keys == s.pmm.refs.Keys
  {
    Frames.DropValid(s.pmm, f);
    hide Frames.Valid;
  }

  lemma GiveBackInv(s: Race, s': Race, c: nat)
    requires Inv(s) && GiveBack(s, s', c)
    ensures Inv(s')
  {
    hide Accounted, PcsOk, Frames.Drop;
    PcAt(s, c);
    var f := s.pc[c].f;
    HandApart(s, f);
    GiveBackAccounted(s, s', f);
    PcsStep(s, s', c);
    hide PcOk;
  }

  predicate Elsewhere(a: Action) {
    a.AOtherTakes? || a.AOtherShares? || a.AOtherDrops? || a.AOtherWrites?
  }

  lemma TakesAccounted(s: Race, s': Race)
    requires Accounted(s) && OtherTakes(s, s')
    ensures Accounted(s') && s'.pmm.refs.Keys == s.pmm.refs.Keys
  {
    Frames.TakeValid(s.pmm);
    hide Frames.Valid, Frames.Top;
  }

  lemma SharesAccounted(s: Race, s': Race, f: nat)
    requires Accounted(s) && OtherShares(s, s', f)
    ensures Accounted(s') && s'.pmm.refs.Keys == s.pmm.refs.Keys
  {
    Frames.ShareValid(s.pmm, f);
    hide Frames.Valid;
  }

  lemma DropsAccounted(s: Race, s': Race, f: nat)
    requires Accounted(s) && OtherDrops(s, s', f)
    ensures Accounted(s') && s'.pmm.refs.Keys == s.pmm.refs.Keys
  {
    Frames.DropValid(s.pmm, f);
    hide Frames.Valid;
  }

  lemma OthersAccounted(s: Race, s': Race, c: nat, a: Action)
    requires Accounted(s) && Step(s, s', c, a) && Elsewhere(a)
    ensures Accounted(s') && s'.pmm.refs.Keys == s.pmm.refs.Keys
    ensures a.AOtherWrites? ==> a.f !in s.won && a.f !in s.hands
  {
    match a
    case AOtherTakes => TakesAccounted(s, s');
    case AOtherShares(f) => SharesAccounted(s, s', f);
    case AOtherDrops(f) => DropsAccounted(s, s', f);
    case _ =>
    hide Frames.Valid, Frames.Take, Frames.Share, Frames.Drop;
  }

  lemma OthersInv(s: Race, s': Race, c: nat, a: Action)
    requires Inv(s) && Step(s, s', c, a) && Elsewhere(a)
    ensures Inv(s')
  {
    hide Accounted, Frames.Take, Frames.Share, Frames.Drop, Frames.Top;
    OthersAccounted(s, s', c, a);
    forall d | d in s.pc
      ensures PcOk(s', d)
    {
      assert PcOk(s, d);
    }
  }

  lemma StepInv(s: Race, s': Race, c: nat, a: Action)
    requires Inv(s) && Step(s, s', c, a)
    ensures Inv(s')
  {
    hide Inv;
    hide Look, Alloc, Zero, Recheck, GiveBack, OtherTakes, OtherShares, OtherDrops, OtherWrites;
    match a
    case ALook => LookInv(s, s', c);
    case AAlloc => AllocInv(s, s', c);
    case AZero => ZeroInv(s, s', c);
    case ARecheck => RecheckInv(s, s', c);
    case AGiveBack => GiveBackInv(s, s', c);
    case _ => OthersInv(s, s', c, a);
  }

  // ----- whole runs

  /** The calls are about to begin. */
  ghost predicate Start(s: Race) {
    && Inv(s) && s.won == map[] && s.hands == map[] && forall c :: c in s.pc ==> s.pc[c] == Looking
  }

  /** Nothing more is asked of a state than that the allocator's counts agree with the frames in use elsewhere, that
      frames are 512 words, and that the slot does not hold a null pointer. */
  lemma StartIff(s: Race)
    ensures Start(s) <==>
      && Frames.Valid(s.pmm) && s.won == map[] && s.hands == map[] && (forall c :: c in s.pc ==> s.pc[c] == Looking)
      && s.others == (set f | f in s.pmm.refs && s.pmm.refs[f] > 0)
      && (s.slot.flags.present ==> s.slot.frame != 0)
      && (forall f :: f in s.pmm.refs ==> f in s.tables && |s.tables[f]| == ENTRIES)
  {
    hide Frames.Valid;
    if Start(s) {
      assert forall f :: f in s.others ==> f in s.pmm.refs.Keys;
      assert s.others == (set f | f in s.pmm.refs && s.pmm.refs[f] > 0);
    } else if s.won == map[] && s.hands == map[] && s.others == (set f | f in s.pmm.refs && s.pmm.refs[f] > 0) {
      assert s.others <= s.pmm.refs.Keys;
    }
  }

  ghost predicate Finished(s: Race) {
    forall c :: c in s.pc ==> s.pc[c].Done?
  }

  datatype Run = Run(states: seq<Race>, cpus: seq<nat>, acts: seq<Action>)

  ghost predicate IsRun(r: Run) {
    && |r.states| == |r.acts| + 1 && |r.cpus| == |r.acts|
    && forall i :: 0 <= i < |r.acts| ==> Step(r.states[i], r.states[i + 1], r.cpus[i], r.acts[i])
  }

  /** How the slot of `s` comes from that of `s0`: filled at most once, by an installed table. */
  ghost predicate SlotFrom(s0: Race, s: Race) {
    && s.pc.Keys == s0.pc.Keys && s.pmm.refs.Keys == s0.pmm.refs.Keys
    && if s0.slot.flags.present then s.slot == s0.slot && s.won == map[]
       else s.slot.flags.present <==> s.won != map[]
  }

  lemma StepKeys(s: Race, s': Race, c: nat, a: Action)
    requires Accounted(s) && PcsOk(s) && Step(s, s', c, a)
    ensures s'.pmm.refs.Keys == s.pmm.refs.Keys && s'.pc.Keys == s.pc.Keys
  {
    hide Accounted, PcsOk;
    if Elsewhere(a) {
      OthersAccounted(s, s', c, a);
    } else if a.AAlloc? && s.pmm.free != [] {
      AllocAccounted(s, s', c);
    } else if a.AGiveBack? {
      PcAt(s, c);
      GiveBackAccounted(s, s'.(pc := s.pc), s.pc[c].f);
    }
    hide Frames.Take, Frames.Share, Frames.Drop;
  }

  lemma StepSlot(s0: Race, s: Race, s': Race, c: nat, a: Action)
    requires Inv(s) && SlotFrom(s0, s) && Step(s, s', c, a)
    ensures SlotFrom(s0, s')
  {
    hide Accounted, PcsOk, HandsOk, SlotOk, OneWinner, Frames.Take, Frames.Share, Frames.Drop, Frames.Top, Elsewhere;
    StepKeys(s, s', c, a);
    if a.ARecheck? && !s.slot.flags.present {
      assert s.pc[c].f in s'.won;
    } else {
      assert s'.slot == s.slot && s'.won == s.won;
    }
  }

  lemma {:induction false} RunSlot(r: Run, n: nat)
    requires IsRun(r) && Start(r.states[0]) && n <= |r.acts|
    ensures Inv(r.states[n]) && SlotFrom(r.states[0], r.states[n])
  {
    hide Inv, Step;
    if n == 0 {
      StartSlot(r.states[0]);
    } else {
      RunSlot(r, n - 1);
      StepInv(r.states[n - 1], r.states[n], r.cpus[n - 1], r.acts[n - 1]);
      StepSlot(r.states[0], r.states[n - 1], r.states[n], r.cpus[n - 1], r.acts[n - 1]);
    }
  }

  lemma StartSlot(s: Race)
    requires Start(s)
    ensures Inv(s) && SlotFrom(s, s)
  {
  }

  /** With no frame in a hand, the free frames are those neither used elsewhere nor installed. */
  lemma FreeFrames(s: Race)
    requires Inv(s) && s.hands == map[]
    ensures forall f :: f in s.pmm.free <==> f in s.pmm.refs && f !in s.others && f !in s.won
    ensures forall f :: f in s.won ==> f in s.pmm.refs && f !in s.others
  {
    hide PcsOk, HandsOk, SlotOk, OneWinner;
  }

  lemma HandBusy(s: Race, f: nat)
    requires HandsOk(s) && f in s.hands
    ensures s.hands[f] in s.pc && !s.pc[s.hands[f]].Done?
  {
    assert HandOk(s, f);
  }

  lemma NoHands(s: Race)
    requires Inv(s) && Finished(s)
    ensures s.hands == map[]
  {
    hide Accounted, PcsOk, SlotOk, OneWinner, HandsOk;
    forall f | f in s.hands
      ensures s.hands[f] in s.pc && !s.pc[s.hands[f]].Done?
    {
      HandBusy(s, f);
    }
  }

  /** When every call has returned, whatever the interleaving: a missing table has been installed exactly once,
      all zero, or every call found no frame; every call that did not return NULL returned the table in the
      slot; and, other code's frames aside, exactly the installed frame has left the free stack. */
  lemma Outcome(r: Run)
    requires IsRun(r) && Start(r.states[0]) && Finished(r.states[|r.acts|])
    ensures var s0, s := r.states[0], r.states[|r.acts|];
      && (forall c :: c in s.pc && s.pc[c].result != 0 ==> s.slot.flags.present && s.pc[c].result == s.slot.frame)
      && (s0.slot.flags.present ==> s.slot == s0.slot && s.won == map[])
      && (!s0.slot.flags.present && (exists c :: c in s.pc && s.pc[c].result != 0) ==>
            s.slot.flags == LINK && s.won.Keys == {s.slot.frame} && s.slot.frame in s.tables &&
            s.tables[s.slot.frame] == ZeroTable())
      && (!s0.slot.flags.present && (forall c :: c in s.pc ==> s.pc[c].result == 0) ==>
          !s.slot.flags.present && s.won == map[])
      && (s.others == s0.others ==>
            (forall f :: f in s0.pmm.free <==> f in s.pmm.free || f in s.won) &&
            (forall f :: f in s.won ==> f !in s.pmm.free))
  {
    hide Step, Accounted, HandsOk;
    var s0, s := r.states[0], r.states[|r.acts|];
    RunSlot(r, |r.acts|);
    NoHands(s);
    FreeFrames(s0);
    FreeFrames(s);
    assert forall c :: c in s.pc ==> PcOk(s, c);
    hide PcsOk, SlotOk;
  }

  // ----- every call returns

  function Rank(p: Pc): nat {
    match p
    case Looking => ENTRIES + 4
    case Allocating => ENTRIES + 3
    case Zeroing(_, k) => if k <= ENTRIES then ENTRIES - k + 2 else 2
    case Losing(_, _) => 1
    case Done(_) => 0
  }

  /** The steps CPU `c` has taken in the first `n`. */
  function Steps(r: Run, c: nat, n: nat): nat
    requires n <= |r.acts| && |r.cpus| == |r.acts|
  {
    if n == 0 then 0 else Steps(r, c, n - 1) + if r.cpus[n - 1] == c && !Elsewhere(r.acts[n - 1]) then 1 else 0
  }

  /** A call takes at most 516 steps of its own, and none of another CPU's steps sets it back. */
  lemma {:induction false} CallBounded(r: Run, c: nat, n: nat)
    requires IsRun(r) && n <= |r.acts| && c in r.states[0].pc
    ensures c in r.states[n].pc && Steps(r, c, n) + Rank(r.states[n].pc[c]) <= Rank(r.states[0].pc[c]) <= ENTRIES + 4
  {
    if n > 0 {
      CallBounded(r, c, n - 1);
      assert Step(r.states[n - 1], r.states[n], r.cpus[n - 1], r.acts[n - 1]);
    }
  }

  /** A call that has not returned can always take its next step. */
  lemma Progress(s: Race, c: nat) returns (s': Race, a: Action)
    requires Inv(s) && c in s.pc && !s.pc[c].Done?
    ensures Step(s, s', c, a) && Rank(s'.pc[c]) < Rank(s.pc[c])
  {
    hide Accounted, SlotOk, OneWinner;
    assert PcOk(s, c);
    hide PcsOk, HandsOk;
    match s.pc[c]
    case Looking =>
      a, s' := ALook, s.(pc := s.pc[c := if s.slot.flags.present then Done(s.slot.frame) else Allocating]);
    case Allocating =>
      a := AAlloc;
      s' := if s.pmm.free == [] then s.(pc := s.pc[c := Done(0)])
            else s.(pmm := Frames.Take(s.pmm), hands := s.hands[Frames.Top(s.pmm) := c],
                    pc := s.pc[c := Zeroing(Frames.Top(s.pmm), 0)]);
    case Zeroing(f, k) =>
      if k < ENTRIES {
        a, s' := AZero, s.(tables := s.tables[f := s.tables[f][k := Clear]], pc := s.pc[c := Zeroing(f, k + 1)]);
      } else {
        a := ARecheck;
        s' := if s.slot.flags.present then s.(pc := s.pc[c := Losing(f, s.slot.frame)])
              else s.(slot := Entry(f, LINK), won := s.won[f := c], hands := s.hands - {f}, pc := s.pc[c := Done(f)]);
      }
    case Losing(f, next) =>
      a, s' := AGiveBack, s.(pmm := Frames.Drop(s.pmm, f), hands := s.hands - {f}, pc := s.pc[c := Done(next)]);
  }
}
