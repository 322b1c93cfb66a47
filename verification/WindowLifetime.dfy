/** When windows may be freed: snapshots hold windows across unlocked regions while other CPUs destroy them. Each
    step is one section under the window lock, so runs are all interleavings. */
module WindowLifetime {
  import opened Common

  /** `freed` counts the calls of `free_window`. */
  datatype Win = Win(owner: nat, refs: nat, destroyed: bool, freed: nat)

  /** What a CPU holds between its two locked sections. */
  datatype Cpu = Resting | Drawing(held: seq<nat>) | Updating(held: seq<nat>)

  datatype Sys = Sys(wins: map<nat, Win>, list: seq<nat>, dragging: Option<nat>, cpus: map<nat, Cpu>, nextId: nat)

  function Held(p: Cpu): seq<nat> {
    if p.Resting? then [] else p.held
  }

  // ----- the locked sections

  ghost predicate Create(s: Sys, s': Sys, owner: nat) {
    s' == s.(wins := s.wins[s.nextId := Win(owner, 0, false, 0)], list := [s.nextId] + s.list, nextId := s.nextId + 1)
  }

  /** At most 16 windows, from the front. */
  function Shown(list: seq<nat>): seq<nat> {
    if |list| <= 16 then list else list[..16]
  }

  function Retained(wins: map<nat, Win>, held: seq<nat>): map<nat, Win> {
    map w | w in wins :: if w in held then wins[w].(refs := wins[w].refs + 1) else wins[w]
  }

  /** The snapshot at the start of `window_draw_all` or `window_update`. */
  ghost predicate Snapshot(s: Sys, s': Sys, c: nat, drawing: bool) {
    && c in s.cpus && s.cpus[c].Resting?
    && s' == s.(wins := Retained(s.wins, Shown(s.list)),
                cpus := s.cpus[c := if drawing then Drawing(Shown(s.list)) else Updating(Shown(s.list))])
  }

  /** `release_window_locked`; a count of 0 is left alone. */
  function Release(win: Win): Win {
    if win.refs == 0 then win
    else
      var w := win.(refs := win.refs - 1);
      if w.destroyed && w.refs == 0 then w.(freed := w.freed + 1) else w
  }

  function Released(wins: map<nat, Win>, held: seq<nat>): map<nat, Win> {
    map w | w in wins :: if w in held then Release(wins[w]) else wins[w]
  }

  ghost predicate EndDraw(s: Sys, s': Sys, c: nat) {
    && c in s.cpus && s.cpus[c].Drawing?
    && s' == s.(wins := Released(s.wins, s.cpus[c].held), cpus := s.cpus[c := Resting])
  }

  function Without(list: seq<nat>, w: nat): seq<nat> {
    if list == [] then [] else if list[0] == w then list[1..] else [list[0]] + Without(list[1..], w)
  }

  /** The window first, if it is in the list. */
  function Raised(list: seq<nat>, w: nat): seq<nat> {
    if w in list then [w] + Without(list, w) else list
  }

  /** The second section of `window_update`: the buttons, with the window `hit` found in the snapshot, then the
      release, then the last look at the dragged window. */
  ghost predicate EndUpdate(s: Sys, s': Sys, c: nat, pressed: bool, hit: Option<nat>, inTitle: bool) {
    && c in s.cpus && s.cpus[c].Updating? && (hit.Some? ==> hit.value in s.cpus[c].held && hit.value in s.wins)
    && (s.dragging.Some? ==> s.dragging.value in s.wins)
    && var grabs := pressed && s.dragging.None? && hit.Some? && !s.wins[hit.value].destroyed && inTitle;
    && var dragging :=
         if grabs then hit else if pressed && s.dragging.Some? && !s.wins[s.dragging.value].destroyed then s.dragging
           else None;
    && var wins := Released(s.wins, s.cpus[c].held);
    && s' == s.(wins := wins, list := if grabs then Raised(s.list, hit.value) else s.list,
                dragging := if dragging.Some? && dragging.value in wins && wins[dragging.value].destroyed then None
                  else dragging,
                cpus := s.cpus[c := Resting])
  }

  function Destroy(win: Win): Win {
    var w := win.(destroyed := true);
    if w.refs == 0 then w.(freed := w.freed + 1) else w
  }

  function OthersOf(wins: map<nat, Win>, list: seq<nat>, pid: nat): seq<nat> {
    if list == [] then []
    else (if list[0] in wins && wins[list[0]].owner == pid then [] else [list[0]]) + OthersOf(wins, list[1..], pid)
  }

  ghost predicate DestroyByPid(s: Sys, s': Sys, pid: nat) {
    s' == s.(wins := map w | w in s.wins :: if w in s.list && s.wins[w].owner == pid then Destroy(s.wins[w])
             else s.wins[w],
             list := OthersOf(s.wins, s.list, pid),
             dragging := if s.dragging.Some? && s.dragging.value in s.wins && s.dragging.value in s.list &&
               s.wins[s.dragging.value].owner == pid
                         then None else s.dragging)
  }

  /** `window_set_owner`, on a window that may have been destroyed since it was created. */
  ghost predicate SetOwner(s: Sys, s': Sys, w: nat, owner: nat) {
    && w in s.wins && s.wins[w].freed == 0
    && s' == s.(wins := s.wins[w := if s.wins[w].destroyed then s.wins[w] else s.wins[w].(owner := owner)])
  }

  datatype Action =
    | ACreate(owner: nat) | ASnapshot(drawing: bool) | AEndDraw | AEndUpdate(pressed: bool, hit: Option<nat>,
        inTitle: bool)
    | ASetOwner(w: nat, owner: nat) | ADestroyByPid(pid: nat)

  ghost predicate Step(s: Sys, s': Sys, c: nat, a: Action) {
    match a
    case ACreate(owner) => Create(s, s', owner)
    case ASnapshot(drawing) => Snapshot(s, s', c, drawing)
    case AEndDraw => EndDraw(s, s', c)
    case AEndUpdate(pressed, hit, inTitle) => EndUpdate(s, s', c, pressed, hit, inTitle)
    case ASetOwner(w, owner) => SetOwner(s, s', w, owner)
    case ADestroyByPid(pid) => DestroyByPid(s, s', pid)
  }

  // ----- the invariant

  ghost function Holders(s: Sys, w: nat): set<nat> {
    set c | c in s.cpus && w in Held(s.cpus[c])
  }

  /** The list holds exactly the windows that are not destroyed, once each. */
  ghost predicate ListOk(s: Sys) {
    Distinct(s.list) && forall w :: w in s.list <==> w in s.wins && !s.wins[w].destroyed
  }

  ghost predicate DragOk(s: Sys) {
    s.dragging.Some? ==> s.dragging.value in s.list
  }

  ghost predicate HeldOk(s: Sys) {
    forall c, w :: c in s.cpus && w in Held(s.cpus[c]) ==> w in s.wins
  }

  /** The count is the number of CPUs holding the window, and the window has been freed, once, exactly when it is
      destroyed and nobody holds it. */
  ghost predicate CountOk(s: Sys, w: nat)
    requires w in s.wins
  {
    && s.wins[w].refs == |Holders(s, w)|
    && s.wins[w].freed == if s.wins[w].destroyed && Holders(s, w) == {} then 1 else 0
  }

  ghost predicate CountsOk(s: Sys) {
    forall w :: w in s.wins ==> CountOk(s, w) && w < s.nextId
  }

  ghost predicate Inv(s: Sys) {
    ListOk(s) && DragOk(s) && HeldOk(s) && CountsOk(s)
  }

  // ----- lists

  lemma ConsDistinct(x: nat, q: seq<nat>)
    ensures Distinct(q) && x !in q ==> Distinct([x] + q)
  {
  }

  lemma {:induction false} WithoutIs(list: seq<nat>, w: nat)
    requires Distinct(list)
    ensures Distinct(Without(list, w)) && forall v :: v in Without(list, w) <==> v in list && v != w
  {
    if list != [] {
      assert Distinct(list[1..]);
      WithoutIs(list[1..], w);
      assert list == [list[0]] + list[1..];
      assert list[0] !in list[1..];
      ConsDistinct(list[0], Without(list[1..], w));
    }
  }

  lemma RaisedIs(list: seq<nat>, w: nat)
    requires Distinct(list)
    ensures Distinct(Raised(list, w)) && forall v :: v in Raised(list, w) <==> v in list
  {
    WithoutIs(list, w);
  }

  lemma {:induction false} OthersIs(wins: map<nat, Win>, list: seq<nat>, pid: nat)
    requires Distinct(list)
    ensures Distinct(OthersOf(wins, list, pid))
    ensures forall v :: v in OthersOf(wins, list, pid) <==> v in list && !(v in wins && wins[v].owner == pid)
  {
    if list != [] {
      assert Distinct(list[1..]);
      OthersIs(wins, list[1..], pid);
      assert list == [list[0]] + list[1..];
    }
  }

  // ----- every section keeps the invariant

  lemma SameHolders(s: Sys, s': Sys, w: nat)
    requires s'.cpus == s.cpus
    ensures Holders(s', w) == Holders(s, w)
  {
  }

  lemma CreateInv(s: Sys, s': Sys, owner: nat)
    requires Inv(s) && Create(s, s', owner)
    ensures Inv(s')
  {
    assert s.nextId !in s.wins && s.nextId !in s.list;
    assert Holders(s', s.nextId) == {};
    forall w | w in s'.wins
      ensures CountOk(s', w) && w < s'.nextId
    {
      SameHolders(s, s', w);
      assert w in s.wins ==> CountOk(s, w);
    }
    hide CountsOk, Holders;
  }

  /** One more holder. */
  lemma HoldersMore(s: Sys, s': Sys, c: nat, w: nat)
    requires c in s.cpus && s.cpus[c].Resting? && c in s'.cpus && s'.cpus == s.cpus[c := s'.cpus[c]]
    ensures w in Held(s'.cpus[c]) ==> Holders(s', w) == Holders(s, w) + {c} && c !in Holders(s, w)
    ensures w !in Held(s'.cpus[c]) ==> Holders(s', w) == Holders(s, w)
  {
  }

  lemma SnapshotInv(s: Sys, s': Sys, c: nat, drawing: bool)
    requires Inv(s) && Snapshot(s, s', c, drawing)
    ensures Inv(s')
  {
    forall w | w in s'.wins
      ensures CountOk(s', w) && w < s'.nextId
    {
      HoldersMore(s, s', c, w);
      assert CountOk(s, w);
      assert w in Shown(s.list) ==> w in s.list;
    }
    hide CountsOk, CountOk, Holders;
  }

  /** One holder fewer. */
  lemma HoldersLess(s: Sys, s': Sys, c: nat, w: nat)
    requires c in s.cpus && s'.cpus == s.cpus[c := Resting]
    ensures w in Held(s.cpus[c]) ==> Holders(s, w) == Holders(s', w) + {c} && c !in Holders(s', w)
    ensures w !in Held(s.cpus[c]) ==> Holders(s', w) == Holders(s, w)
  {
  }

  lemma ReleaseCounts(s: Sys, s': Sys, c: nat)
    requires HeldOk(s) && CountsOk(s) && c in s.cpus && s'.cpus == s.cpus[c := Resting] &&
      s'.wins == Released(s.wins, Held(s.cpus[c]))
    requires s'.nextId == s.nextId
    ensures HeldOk(s') && CountsOk(s')
  {
    forall w | w in s'.wins
      ensures CountOk(s', w) && w < s'.nextId
    {
      HoldersLess(s, s', c, w);
      assert CountOk(s, w);
      hide HeldOk;
    }
    hide CountsOk, CountOk, Holders;
  }

  lemma EndDrawInv(s: Sys, s': Sys, c: nat)
    requires Inv(s) && EndDraw(s, s', c)
    ensures Inv(s')
  {
    hide HeldOk, CountsOk;
    ReleaseCounts(s, s', c);
  }

  lemma EndUpdateInv(s: Sys, s': Sys, c: nat, pressed: bool, hit: Option<nat>, inTitle: bool)
    requires Inv(s) && EndUpdate(s, s', c, pressed, hit, inTitle)
    ensures Inv(s')
  {
    hide HeldOk, CountsOk, Distinct;
    ReleaseCounts(s, s', c);
    if hit.Some? {
      RaisedIs(s.list, hit.value);
    }
    hide Raised;
  }

  lemma DestroyByPidInv(s: Sys, s': Sys, pid: nat)
    requires Inv(s) && DestroyByPid(s, s', pid)
    ensures Inv(s')
  {
    OthersIs(s.wins, s.list, pid);
    hide Distinct, OthersOf;
    forall w | w in s'.wins
      ensures CountOk(s', w) && w < s'.nextId
    {
      SameHolders(s, s', w);
      assert CountOk(s, w);
      hide Holders;
    }
    hide CountsOk, CountOk;
  }

  lemma SetOwnerInv(s: Sys, s': Sys, w: nat, owner: nat)
    requires Inv(s) && SetOwner(s, s', w, owner)
    ensures Inv(s')
  {
    hide Distinct;
    forall v | v in s'.wins
      ensures CountOk(s', v) && v < s'.nextId
    {
      SameHolders(s, s', v);
      assert CountOk(s, v);
      hide Holders;
    }
    hide CountsOk, CountOk;
  }

  lemma StepInv(s: Sys, s': Sys, c: nat, a: Action)
    requires Inv(s) && Step(s, s', c, a)
    ensures Inv(s')
  {
    hide Inv, Create, Snapshot, EndDraw, EndUpdate, SetOwner, DestroyByPid;
    match a
    case ACreate(owner) => CreateInv(s, s', owner);
    case ASnapshot(drawing) => SnapshotInv(s, s', c, drawing);
    case AEndDraw => EndDrawInv(s, s', c);
    case AEndUpdate(pressed, hit, inTitle) => EndUpdateInv(s, s', c, pressed, hit, inTitle);
    case ASetOwner(w, owner) => SetOwnerInv(s, s', w, owner);
    case ADestroyByPid(pid) => DestroyByPidInv(s, s', pid);
  }

  // ----- whole runs

  datatype Run = Run(states: seq<Sys>, cpus: seq<nat>, acts: seq<Action>)

  ghost predicate IsRun(r: Run) {
    && |r.states| == |r.acts| + 1 && |r.cpus| == |r.acts|
    && forall i :: 0 <= i < |r.acts| ==> Step(r.states[i], r.states[i + 1], r.cpus[i], r.acts[i])
  }

  /** No windows, nobody holds anything. */
  ghost predicate Boot(s: Sys) {
    s.wins == map[] && s.list == [] && s.dragging.None? && forall c :: c in s.cpus ==> s.cpus[c].Resting?
  }

  lemma {:induction false} RunInv(r: Run, n: nat)
    requires IsRun(r) && Boot(r.states[0]) && n <= |r.acts|
    ensures Inv(r.states[n])
  {
    if n > 0 {
      hide Inv, Step, Boot;
      RunInv(r, n - 1);
      StepInv(r.states[n - 1], r.states[n], r.cpus[n - 1], r.acts[n - 1]);
    }
  }

  /** A window held by a snapshot is not freed, nor is one in the list or being dragged; and what is freed is gone
      for good: no snapshot can take it again. */
  lemma NotFreed(r: Run, n: nat, w: nat)
    requires IsRun(r) && Boot(r.states[0]) && n <= |r.acts|
    ensures var s := r.states[n];
      ((exists c :: c in s.cpus && w in Held(s.cpus[c])) || w in s.list || s.dragging == Some(w)) ==>
      w in s.wins && s.wins[w].freed == 0
  {
    hide Step, Boot;
    RunInv(r, n);
    var s := r.states[n];
    assert w in s.wins ==> CountOk(s, w);
    if c :| c in s.cpus && w in Held(s.cpus[c]) {
      assert c in Holders(s, w);
    }
    hide CountsOk;
  }

  /** Once freed a window stays freed, and is never freed again. */
  lemma {:induction false} FreedOnce(r: Run, i: nat, n: nat, w: nat)
    requires IsRun(r) && Boot(r.states[0]) && i <= n <= |r.acts| && w in r.states[i].wins
    ensures w in r.states[n].wins && r.states[i].wins[w].freed <= r.states[n].wins[w].freed <= 1
    ensures r.states[i].wins[w].destroyed ==> r.states[n].wins[w].destroyed
    decreases n
  {
    RunInv(r, n);
    assert w in r.states[n].wins ==> CountOk(r.states[n], w);
    hide Boot, Inv, CountOk;
    if i < n {
      FreedOnce(r, i, n - 1, w);
      RunInv(r, n - 1);
      StepFreed(r.states[n - 1], r.states[n], r.cpus[n - 1], r.acts[n - 1], w);
      FreedAtMost(r.states[n], w);
    } else {
      FreedAtMost(r.states[n], w);
    }
  }

  lemma FreedAtMost(s: Sys, w: nat)
    requires Inv(s)
    ensures w in s.wins ==> s.wins[w].freed <= 1
  {
    assert w in s.wins ==> CountOk(s, w);
  }

  lemma StepFreed(s: Sys, s': Sys, c: nat, a: Action, w: nat)
    requires Inv(s) && Step(s, s', c, a) && w in s.wins
    ensures w in s'.wins && s'.wins[w].freed >= s.wins[w].freed && (s.wins[w].destroyed ==> s'.wins[w].destroyed)
  {
    assert w < s.nextId;
    hide ListOk, DragOk, HeldOk, CountsOk;
  }

  /** A destroyed window that no CPU holds has been freed: nothing leaks. */
  lemma AllFreed(r: Run, n: nat, w: nat)
    requires IsRun(r) && Boot(r.states[0]) && n <= |r.acts| && w in r.states[n].wins
    ensures var s := r.states[n];
      s.wins[w].freed == 1 <==> s.wins[w].destroyed && forall c :: c in s.cpus ==> w !in Held(s.cpus[c])
  {
    hide Step, Boot;
    RunInv(r, n);
    var s := r.states[n];
    assert CountOk(s, w);
    hide CountsOk, ListOk, HeldOk;
    if Holders(s, w) != {} {
      var c :| c in Holders(s, w);
    } else {
      forall c | c in s.cpus
        ensures w !in Held(s.cpus[c])
      {
        assert c !in Holders(s, w);
      }
    }
  }
}
