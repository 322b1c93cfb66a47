/** The disk as bytes, and the TAR archive on it as a list of entries. */
module DiskImage {
  import opened Common

  const SECTOR: nat := 512

  type Disk = imap<int, seq<Byte>>

  ghost predicate DiskOk(d: Disk) {
    forall l: int :: l in d && |d[l]| == SECTOR
  }

  ghost function At(d: Disk, a: nat): Byte
    requires DiskOk(d)
  {
    d[a / SECTOR][a % SECTOR]
  }

  /** The `n` bytes from `a` on. */
  ghost function Bytes(d: Disk, a: nat, n: nat): (s: seq<Byte>)
    requires DiskOk(d)
    ensures |s| == n && forall i :: 0 <= i < n ==> s[i] == At(d, a + i)
  {
    seq(n, i requires 0 <= i < n => At(d, a + i))
  }

  /** `d'` is `d` with `data` written at byte address `a`, and no other byte changed. */
  ghost predicate Wrote(d: Disk, d': Disk, a: nat, data: seq<Byte>) {
    DiskOk(d) && DiskOk(d') && forall b: nat :: At(d', b) == if a <= b < a + |data| then data[b - a] else At(d, b)
  }

  // ----- the archive

  /** The file name in a header: up to the first zero byte. */
  function NameOf(s: seq<Byte>): seq<Byte> {
    if s == [] || s[0] == 0 then [] else [s[0]] + NameOf(s[1..])
  }

  predicate IsOctal(c: Byte) {
    0x30 <= c <= 0x37
  }

  function DigitOf(c: Byte): (d: nat)
    requires IsOctal(c)
    ensures d < 8
  {
    c as nat - 0x30
  }

  /** The value of the octal digits at the front, at most `n` of them, in 32-bit arithmetic. */
  function Octal(s: seq<Byte>, n: nat, acc: nat): (r: nat)
    requires acc < 0x1_0000_0000
    ensures r < 0x1_0000_0000
    decreases n
  {
    if n == 0 || s == [] || !IsOctal(s[0]) then acc
    else Octal(s[1..], n - 1, acc * 8 % 0x1_0000_0000 + DigitOf(s[0]))
  }

  const SIZE_AT: nat := 124

  function SizeOf(s: seq<Byte>): nat
    requires |s| == SECTOR
  {
    Octal(s[SIZE_AT..], 11, 0)
  }

  /** How far on the next header is: the file's sectors and the header itself. */
  function Skip(s: seq<Byte>): (n: nat)
    requires |s| == SECTOR
    ensures n >= 1
  {
    1 + (SizeOf(s) + 511) % 0x1_0000_0000 / SECTOR
  }

  /** The same without the 32-bit limit. */
  function PlainOctal(s: seq<Byte>, n: nat, acc: nat): nat {
    if n == 0 || s == [] || !IsOctal(s[0]) then acc
    else PlainOctal(s[1..], n - 1, acc * 8 + DigitOf(s[0]))
  }

  lemma ModOf(k: nat, x: nat)
    requires x < 0x1_0000_0000
    ensures (k * 0x1_0000_0000 + x) % 0x1_0000_0000 == x
  {
  }

  lemma DigitMod(acc: nat, d: nat)
    requires d < 8
    ensures acc % 0x1_0000_0000 * 8 % 0x1_0000_0000 + d == (acc * 8 + d) % 0x1_0000_0000
  {
    var m := acc % 0x1_0000_0000;
    var r := m * 8 % 0x1_0000_0000;
    assert r <= 0x1_0000_0000 - 8;
    assert acc * 8 + d == (acc / 0x1_0000_0000 * 8 + m * 8 / 0x1_0000_0000) * 0x1_0000_0000 + (r + d);
    ModOf(acc / 0x1_0000_0000 * 8 + m * 8 / 0x1_0000_0000, r + d);
  }

  /** The size field as the loop reads it is its octal value, unless that needs more than 32 bits. */
  lemma {:induction false} OctalMod(s: seq<Byte>, n: nat, acc: nat)
    ensures Octal(s, n, acc % 0x1_0000_0000) == PlainOctal(s, n, acc) % 0x1_0000_0000
    decreases n
  {
    hide DigitOf, IsOctal;
    if !(n == 0 || s == [] || !IsOctal(s[0])) {
      DigitMod(acc, DigitOf(s[0]));
      OctalMod(s[1..], n - 1, acc * 8 + DigitOf(s[0]));
    }
  }

  const LIMIT: nat := 20000

  datatype Entry = Entry(name: seq<Byte>, lba: nat, size: nat)

  /** The archive's entries from the header at `lba` on: up to an empty name, or 20000 sectors. */
  ghost function Entries(d: Disk, start: nat, lba: nat): seq<Entry>
    requires DiskOk(d)
    decreases start + LIMIT + 1 - lba
  {
    var s := d[lba];
    if s[0] == 0 then []
    else
      var next := lba + Skip(s);
      [Entry(NameOf(s), lba + 1, SizeOf(s))] + if next > start + LIMIT || lba > start + LIMIT then []
      else Entries(d, start, next)
  }

  /** The first entry with the name, or the length of the list. */
  function Lookup(es: seq<Entry>, name: seq<Byte>): (i: nat)
    ensures i <= |es|
    ensures i < |es| ==> es[i].name == name
    ensures forall j :: 0 <= j < i ==> es[j].name != name
  {
    if es == [] then 0 else if es[0].name == name then 0 else 1 + Lookup(es[1..], name)
  }
}
