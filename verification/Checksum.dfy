/** The Internet checksum (RFC 1071) as the network code computes it, in 32-bit arithmetic on little-endian words. */
module Checksum {

  type Octet = x: nat | x < 256

  const WORD: nat := 0x1_0000
  const LIMIT: nat := 0x1_0000_0000

  function WordAt(data: seq<Octet>, at: nat): (w: nat)
    requires at + 1 < |data|
    ensures w < WORD
  {
    data[at] as nat + 256 * data[at + 1] as nat
  }

  /** The sum of the 16-bit words; an odd last byte counts as a word of its own. */
  function Sum(data: seq<Octet>): nat {
    if data == [] then 0
    else if |data| == 1 then data[0]
    else WordAt(data, 0) + Sum(data[2..])
  }

  /** `net_checksum` and the loop in `net_send_tcp` fold the carries back in until none is left. */
  function Fold(sum: nat): nat {
    if sum / WORD == 0 then sum else Fold(sum % WORD + sum / WORD)
  }

  // ----- the sum

  lemma {:induction false} SumBound(data: seq<Octet>)
    ensures Sum(data) <= 0xFFFF * ((|data| + 1) / 2)
  {
    if |data| >= 2 {
      SumBound(data[2..]);
    }
  }

  /** Up to 131074 bytes the 32-bit accumulator does not overflow. */
  lemma NoOverflow(data: seq<Octet>)
    requires |data| <= 131074
    ensures Sum(data) < LIMIT
  {
    SumBound(data);
  }

  /** That is the exact bound: 131075 bytes of ones overflow it. No caller passes a buffer that long. */
  lemma {:induction false} OnesSum(n: nat)
    ensures Sum(seq(2 * n, _ => 255)) == 0xFFFF * n
  {
    if n > 0 {
      var s := seq(2 * n, _ => 255);
      assert s[2..] == seq(2 * (n - 1), _ => 255);
      OnesSum(n - 1);
    }
  }

  lemma Overflow(data: seq<Octet>)
    requires data == seq(131074, _ => 255) + [255]
    ensures Sum(data) >= LIMIT
  {
    var ones := seq(2 * 65537, _ => 255);
    OnesSum(65537);
    assert data == ones + [255];
    SumJoin(ones, [255]);
  }

  /** A block of even length can be summed by itself. */
  lemma {:induction false} SumJoin(a: seq<Octet>, b: seq<Octet>)
    requires |a| % 2 == 0
    ensures Sum(a + b) == Sum(a) + Sum(b)
  {
    if a == [] {
      assert a + b == b;
    } else {
      assert (a + b)[2..] == a[2..] + b;
      SumJoin(a[2..], b);
    }
  }

  lemma SumStep(data: seq<Octet>, at: nat)
    requires at <= |data|
    ensures at + 1 < |data| ==> Sum(data[at..]) == WordAt(data, at) + Sum(data[at + 2..])
    ensures at + 1 == |data| ==> Sum(data[at..]) == data[at]
    ensures at == |data| ==> Sum(data[at..]) == 0
    ensures at == 0 ==> Sum(data[at..]) == Sum(data)
  {
    if at + 1 < |data| {
      assert data[at..][2..] == data[at + 2..];
    }
    assert at == 0 ==> data[at..] == data;
  }

  // ----- folding

  /** Folding keeps the sum modulo 65535 and ends below 65536; only a zero sum folds to zero. */
  lemma {:induction false} FoldIs(sum: nat)
    ensures Fold(sum) < WORD && Fold(sum) % 0xFFFF == sum % 0xFFFF && (Fold(sum) == 0 <==> sum == 0)
    decreases sum
  {
    if sum / WORD > 0 {
      FoldIs(sum % WORD + sum / WORD);
      assert sum == (sum % WORD + sum / WORD) + 0xFFFF * (sum / WORD);
      ModAdd(sum % WORD + sum / WORD, sum / WORD);
    }
  }

  lemma ModAdd(a: nat, k: nat)
    ensures (a + 0xFFFF * k) % 0xFFFF == a % 0xFFFF
  {
  }

  /** So folding yields the one representative between 1 and 65535 (or 0 for 0). */
  lemma FoldDetermined(a: nat, b: nat)
    requires a % 0xFFFF == b % 0xFFFF && (a == 0 <==> b == 0)
    ensures Fold(a) == Fold(b)
  {
    FoldIs(a);
    FoldIs(b);
  }

  /** An accumulator that has wrapped around still folds to the right value exactly if the lost multiples of 2^32 are
      a multiple of 65535 in number and something other than zero is left. */
  lemma WrappedFoldIff(sum: nat)
    ensures Fold(sum % LIMIT) == Fold(sum) <==> sum / LIMIT % 0xFFFF == 0 && (sum % LIMIT == 0 ==> sum == 0)
  {
    hide Fold;
    var q, r := sum / LIMIT, sum % LIMIT;
    assert sum == (q + r) + 0xFFFF * (0x1_0001 * q);
    ModAdd(q + r, 0x1_0001 * q);
    assert q == q % 0xFFFF + 0xFFFF * (q / 0xFFFF);
    ModAdd(q % 0xFFFF + r, q / 0xFFFF);
    FoldIs(sum);
    FoldIs(r);
    SameResidue(r, q % 0xFFFF);
    if sum % 0xFFFF == r % 0xFFFF && (sum == 0 <==> r == 0) {
      FoldDetermined(sum, r);
    }
  }

  lemma SameResidue(r: nat, d: nat)
    requires d < 0xFFFF
    ensures (d + r) % 0xFFFF == r % 0xFFFF <==> d == 0
  {
  }

  function Value(data: seq<Octet>): nat {
    0xFFFF - Fold(Sum(data)) % WORD
  }

  // ----- the loops

  /** The low half and the carries above it are added until no carry is left. */
  method FoldLoop(start: nat) returns (sum: nat)
    requires start < LIMIT
    ensures sum == Fold(start) && sum < WORD
  {
    sum := start;
    while sum / WORD != 0
      invariant sum < LIMIT && Fold(sum) == Fold(start)
      decreases sum
    {
      sum := sum % WORD + sum / WORD;
    }
    FoldIs(start);
  }

  /** `net_checksum`. */
  method NetChecksum(data: seq<Octet>) returns (checksum: nat)
    ensures checksum < WORD
    ensures checksum == Value(data) <==> Sum(data) / LIMIT % 0xFFFF == 0 && (Sum(data) % LIMIT == 0 ==> Sum(data) == 0)
    ensures |data| <= 131074 ==> checksum == Value(data)
  {
    hide Sum, Fold;
    var sum := AddWords(data);
    WrappedFoldIff(Sum(data));
    if |data| <= 131074 {
      NoOverflow(data);
    }
    FoldIs(Sum(data));
    sum := FoldLoop(sum);
    checksum := 0xFFFF - sum;
  }

  /** Its first loop. */
  method AddWords(data: seq<Octet>) returns (sum: nat)
    ensures sum == Sum(data) % LIMIT
  {
    hide Sum, WordAt;
    var at: nat, len: nat := 0, |data|;
    sum := 0;
    SumStep(data, 0);
    while len > 1
      invariant at + len == |data| && (sum + Sum(data[at..])) % LIMIT == Sum(data) % LIMIT && sum < LIMIT
      decreases len
    {
      SumStep(data, at);
      AddWrapped(sum, WordAt(data, at), Sum(data[at + 2..]));
      sum := (sum + WordAt(data, at)) % LIMIT;
      at := at + 2;
      len := len - 2;
    }
    SumStep(data, at);
    if len > 0 {
      sum := (sum + data[at] as nat) % LIMIT;
    }
  }

  lemma AddWrapped(sum: nat, word: nat, rest: nat)
    ensures ((sum + word) % LIMIT + rest) % LIMIT == (sum + (word + rest)) % LIMIT
  {
  }

  /** The checksum `net_send_tcp` computes in line, over the pseudo-header and the segment in two loops, is that of
      the one followed by the other. */
  method TcpChecksum(pseudo: seq<Octet>, segment: seq<Octet>) returns (checksum: nat)
    requires |pseudo| == 12 && |segment| < WORD
    ensures checksum == Value(pseudo + segment)
  {
    hide Sum, WordAt, Fold;
    var sum: nat := 0;
    SumJoin(pseudo, segment);
    NoOverflow(pseudo + segment);
    SumStep(pseudo, 0);
    for i := 0 to 6
      invariant sum + Sum(pseudo[2 * i..]) == Sum(pseudo) && sum < LIMIT
    {
      SumStep(pseudo, 2 * i);
      sum := (sum + WordAt(pseudo, 2 * i)) % LIMIT;
    }
    SumStep(pseudo, 12);
    SumStep(segment, 0);
    for i := 0 to |segment| / 2
      invariant sum + Sum(segment[2 * i..]) == Sum(pseudo) + Sum(segment) && sum < LIMIT
    {
      SumStep(segment, 2 * i);
      sum := (sum + WordAt(segment, 2 * i)) % LIMIT;
    }
    SumStep(segment, |segment| / 2 * 2);
    if |segment| % 2 != 0 {
      sum := (sum + segment[|segment| - 1] as nat) % LIMIT;
    }
    sum := FoldLoop(sum);
    checksum := 0xFFFF - sum;
  }

  // ----- what the checksum is for

  /** The block with a value stored, low byte first, in the word at an even offset. */
  function Stored(data: seq<Octet>, at: nat, c: nat): seq<Octet>
    requires at + 1 < |data| && c < WORD
  {
    data[at := c % 256][at + 1 := c / 256]
  }

  lemma {:induction false} StoredSum(data: seq<Octet>, at: nat, c: nat)
    requires at + 1 < |data| && at % 2 == 0 && data[at] == 0 && data[at + 1] == 0 && c < WORD
    ensures Sum(Stored(data, at, c)) == Sum(data) + c
  {
    var s := Stored(data, at, c);
    if at == 0 {
      assert s[2..] == data[2..];
    } else {
      assert s[2..] == Stored(data[2..], at - 2, c);
      StoredSum(data[2..], at - 2, c);
    }
  }

  /** A block with its checksum stored in a word that was zero sums to 0xFFFF, and its own checksum is zero. */
  lemma Verifies(data: seq<Octet>, at: nat)
    requires at + 1 < |data| && at % 2 == 0 && data[at] == 0 && data[at + 1] == 0
    ensures Value(data) < WORD && Fold(Sum(Stored(data, at, Value(data)))) == 0xFFFF &&
      Value(Stored(data, at, Value(data))) == 0
  {
    hide Sum, Fold, Stored;
    FoldIs(Sum(data));
    var c := Value(data);
    StoredSum(data, at, c);
    FoldIs(Sum(data) + c);
    Cancels(Sum(data), Fold(Sum(data)));
    Representative(Fold(Sum(data) + c));
  }

  lemma Representative(f: nat)
    requires 0 < f < WORD && f % 0xFFFF == 0
    ensures f == 0xFFFF
  {
  }

  lemma Cancels(sum: nat, f: nat)
    requires f % 0xFFFF == sum % 0xFFFF && f <= 0xFFFF
    ensures (sum + (0xFFFF - f)) % 0xFFFF == 0
  {
    var k := (sum - f) / 0xFFFF;
    assert (sum - f) % 0xFFFF == 0;
    assert sum - f == 0xFFFF * k;
    assert sum + (0xFFFF - f) == 0xFFFF * (k + 1);
  }

  /** The sum does not care which of two even-sized blocks comes first (section 2 (A) of RFC 1071). */
  lemma OrderFree(a: seq<Octet>, b: seq<Octet>)
    requires |a| % 2 == 0 && |b| % 2 == 0
    ensures Value(a + b) == Value(b + a)
  {
    SumJoin(a, b);
    SumJoin(b, a);
  }
}
