/** The paging format shared by the memory modules: page-table entries and virtual page
    numbers of 4-level paging (section 4.5 of the Intel SDM, Volume 3A). */
module Paging {

  const ENTRIES: nat := 512

  /** The low twelve bits of an entry. `other` holds the bits the kernel only carries along. */
  datatype Flags = Flags(present: bool, writable: bool, user: bool, huge: bool, cow: bool, other: nat)

  const NoFlags: Flags := Flags(false, false, false, false, false, 0)

  /** A page-table entry: the frame number in its address bits, and its flags. */
  datatype Entry = Entry(frame: nat, flags: Flags)

  /** The all-zero entry. */
  const Clear: Entry := Entry(0, NoFlags)

  /** The flags of an entry that leads to a table. */
  const LINK: Flags := Flags(true, true, true, false, false, 0)

  function ZeroTable(): seq<Entry> {
    seq(ENTRIES, _ => Clear)
  }

  /** A virtual page by its four table indices. */
  datatype Va = Va(i: nat, j: nat, k: nat, l: nat)

  predicate ValidVa(va: Va) {
    va.i < ENTRIES && va.j < ENTRIES && va.k < ENTRIES && va.l < ENTRIES
  }

  /** A virtual page of one address space, named by the frame of its PML4. */
  datatype Slot = Slot(space: nat, va: Va)

  /** What cloning leaves in both entries: a writable page becomes copy-on-write. */
  function Shared(e: Entry): Entry {
    Entry(e.frame, (if e.flags.writable then e.flags.(writable := false, cow := true) else e.flags).(present := true))
  }

  /** The entry the fault handler installs for `frame`. */
  function Owned(frame: nat, e: Entry): Entry {
    Entry(frame, e.flags.(cow := false, writable := true, present := true))
  }

  /** Whether a store through the entry may ever succeed, now or after a fault. */
  predicate MayWrite(e: Entry) {
    e.flags.writable || e.flags.cow
  }
}
