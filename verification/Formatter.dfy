/** Formatted output into a buffer of limited size. */
module Formatter {

  const NUL: char := '\0'

  /** The arguments as the formatter takes them: 64-bit words and strings. */
  datatype Arg = Word(bits: nat) | Text(s: string)

  // ----- numbers

  function DigitChar(d: nat): char
    requires d < 36
  {
    if d > 9 then ('a' as int + (d - 10)) as char else ('0' as int + d) as char
  }

  function CharValue(c: char): int {
    if c >= 'a' then c as int - 'a' as int + 10 else c as int - '0' as int
  }

  function Quot(n: nat, base: nat): (q: nat)
    requires base >= 2
    ensures n > 0 ==> q < n
  {
    QuotSmaller(n, base);
    n / base
  }

  function Rem(n: nat, base: nat): (r: nat)
    requires base >= 2
    ensures r < base
  {
    n % base
  }

  lemma QuotSmaller(n: nat, base: nat)
    requires base >= 2
    ensures n > 0 ==> n / base < n
    ensures n / base >= 0
  {
  }

  lemma QuotRem(n: nat, base: nat)
    requires base >= 2
    ensures Quot(n, base) * base + Rem(n, base) == n
  {
  }

  /** The digits of a positive number, least significant first. */
  function LowFirst(n: nat, base: nat): string
    requires 2 <= base <= 36
  {
    if n == 0 then "" else [DigitChar(Rem(n, base))] + LowFirst(Quot(n, base), base)
  }

  function Reversed(s: string): (r: string)
    ensures |r| == |s| && forall i :: 0 <= i < |s| ==> r[i] == s[|s| - 1 - i]
  {
    if s == "" then "" else Reversed(s[1..]) + [s[0]]
  }

  /** The number in the base, most significant digit first. */
  function Digits(n: nat, base: nat): string
    requires 2 <= base <= 36
  {
    if n == 0 then "0" else Reversed(LowFirst(n, base))
  }

  /** What a reader makes of digits, most significant first. */
  function ValueOf(s: string, base: nat): int {
    if s == "" then 0 else ValueOf(s[..|s| - 1], base) * base + CharValue(s[|s| - 1])
  }

  lemma DigitValue(d: nat)
    requires d < 36
    ensures CharValue(DigitChar(d)) == d && DigitChar(d) != NUL
  {
  }

  lemma {:induction false} ReadBack(n: nat, base: nat)
    requires 2 <= base <= 36
    ensures ValueOf(Reversed(LowFirst(n, base)), base) == n
  {
    hide Quot, Rem, DigitChar, CharValue;
    if n > 0 {
      var s, rest := LowFirst(n, base), LowFirst(Quot(n, base), base);
      ReadBack(Quot(n, base), base);
      QuotRem(n, base);
      DigitValue(Rem(n, base));
      assert s[1..] == rest;
      assert Reversed(s) == Reversed(rest) + [s[0]];
      assert Reversed(s)[..|s| - 1] == Reversed(rest);
    }
  }

  /** The text of a number reads back as the number. */
  lemma DigitsValue(n: nat, base: nat)
    requires 2 <= base <= 36
    ensures ValueOf(Digits(n, base), base) == n
  {
    ReadBack(n, base);
    assert "0"[..0] == "";
  }

  function Power(base: nat, k: nat): nat {
    if k == 0 then 1 else base * Power(base, k - 1)
  }

  lemma {:induction false} LengthBound(n: nat, base: nat, k: nat)
    requires 2 <= base <= 36 && n < Power(2, k)
    ensures |LowFirst(n, base)| <= k
    decreases k
  {
    hide Quot, Rem;
    if n > 0 && k > 0 {
      Halves(n, base, Power(2, k - 1));
      LengthBound(Quot(n, base), base, k - 1);
    }
  }

  lemma Halves(n: nat, base: nat, p: nat)
    requires 2 <= base && n < 2 * p
    ensures Quot(n, base) < p
  {
    QuotRem(n, base);
    hide Quot, Rem;
    var q := Quot(n, base);
    assert q * base >= q * 2;
  }

  /** A 64-bit number has at most 64 digits in any base, and no text has a terminating zero in it. */
  lemma DigitsFit(n: nat, base: nat)
    requires 2 <= base <= 36 && n < 0x1_0000_0000_0000_0000
    ensures 1 <= |Digits(n, base)| <= 64
  {
    Power64();
    LengthBound(n, base, 64);
  }

  lemma Power64()
    ensures Power(2, 64) == 0x1_0000_0000_0000_0000
  {
    PowerSplit(32, 32);
    PowerSplit(16, 16);
    assert Power(2, 16) == 65536 by {
      PowerSplit(8, 8);
      assert Power(2, 8) == 256 by { PowerSplit(4, 4); assert Power(2, 4) == 16; }
    }
  }

  lemma {:induction false} PowerSplit(i: nat, j: nat)
    ensures Power(2, i + j) == Power(2, i) * Power(2, j)
  {
    if i > 0 {
      PowerSplit(i - 1, j);
      assert Power(2, i + j) == 2 * Power(2, i - 1 + j);
    }
  }

  /** `reverse`, in place on the first `n` characters. */
  method ReverseInPlace(s: array<char>, n: nat)
    requires n <= s.Length
    modifies s
    ensures s[..n] == Reversed(old(s[..n])) && s[n..] == old(s[n..])
  {
    var i, j := 0, n - 1;
    while i < j
      invariant 0 <= i <= n && j == n - 1 - i
      invariant forall k :: 0 <= k < i ==> s[k] == old(s[n - 1 - k]) && s[n - 1 - k] == old(s[k])
      invariant forall k :: i <= k <= j ==> s[k] == old(s[k])
      invariant s[n..] == old(s[n..])
    {
      s[i], s[j] := s[j], s[i];
      i, j := i + 1, j - 1;
    }
    assert forall k :: 0 <= k < n ==> s[k] == old(s[n - 1 - k]);
  }

  /** `itoa`: the digits and a terminating zero. */
  method Itoa(n: nat, s: array<char>, base: nat)
    requires 2 <= base <= 36 && n < 0x1_0000_0000_0000_0000 && s.Length >= 65
    modifies s
    ensures var d := Digits(n, base); |d| <= 64 && s[..|d|] == d && s[|d|] == NUL
  {
    hide Rem, DigitChar, LowFirst, Reversed, Digits, Quot;
    DigitsFit(n, base);
    LowZero(n, base);
    var i := 0;
    if n == 0 {
      s[i] := '0';
      i := 1;
      assert s[..1] == "0";
    } else {
      var m := n;
      while m > 0
        invariant 0 <= i <= |LowFirst(n, base)| && s[..i] + LowFirst(m, base) == LowFirst(n, base)
        decreases m
      {
        LowStep(m, base);
        ghost var before := s[..i];
        var c := DigitChar(Rem(m, base));
        s[i] := c;
        assert s[..i + 1] == before + [c];
        assert before + ([c] + LowFirst(Quot(m, base), base)) == s[..i + 1] + LowFirst(Quot(m, base), base);
        i := i + 1;
        m := Quot(m, base);
      }
      assert s[..i] == LowFirst(n, base);
    }
    s[i] := NUL;
    ReverseInPlace(s, i);
  }

  lemma LowZero(n: nat, base: nat)
    requires 2 <= base <= 36
    ensures LowFirst(0, base) == "" && Digits(n, base) == (if n == 0 then "0" else Reversed(LowFirst(n, base)))
    ensures |Reversed(LowFirst(n, base))| == |LowFirst(n, base)| && Reversed("0") == "0"
  {
    OneReversed('0');
  }

  lemma LowStep(n: nat, base: nat)
    requires 2 <= base <= 36 && n > 0
    ensures LowFirst(n, base) == [DigitChar(Rem(n, base))] + LowFirst(Quot(n, base), base)
  {
  }

  lemma OneReversed(c: char)
    ensures Reversed([c]) == [c]
  {
    assert [c][1..] == "";
  }

  // ----- the format language

  predicate TakesArg(d: char) {
    d == 'c' || d == 's' || d == 'd' || d == 'u' || d == 'x' || d == 'p'
  }

  const TWO63: nat := 0x8000_0000_0000_0000
  const TWO64: nat := 0x1_0000_0000_0000_0000

  /** The argument suits the directive; the one 64-bit integer without a positive counterpart is excluded. */
  predicate Suits(d: char, arg: Arg) {
    if d == 's' then arg.Text? else arg.Word? && arg.bits < TWO64 && (d == 'd' ==> arg.bits != TWO63)
  }

  /** The text of one directive. */
  function Piece(d: char, arg: Arg): string
    requires Suits(d, arg)
  {
    match d
    case 's' => arg.s
    case 'c' => [(arg.bits % 256) as char]
    case 'd' => if arg.bits >= TWO63 then "-" + Digits(TWO64 - arg.bits, 10) else Digits(arg.bits, 10)
    case 'u' => Digits(arg.bits, 10)
    case _ => Digits(arg.bits, 16)
  }

  /** No directive is cut off, and there is a suitable argument for each. */
  predicate Fits(format: string, args: seq<Arg>) {
    format == "" ||
    if format[0] != '%' then Fits(format[1..], args)
    else |format| >= 2 &&
         if TakesArg(format[1]) then args != [] && Suits(format[1], args[0]) && Fits(format[2..], args[1..])
         else Fits(format[2..], args)
  }

  /** The whole output, if there were room for it. */
  function Expand(format: string, args: seq<Arg>): string
    requires Fits(format, args)
  {
    if format == "" then ""
    else if format[0] != '%' then [format[0]] + Expand(format[1..], args)
    else if TakesArg(format[1]) then Piece(format[1], args[0]) + Expand(format[2..], args[1..])
    else [format[1]] + Expand(format[2..], args)
  }

  /** The buffer holds as much of `done` as fits; what is left of the format will give the rest of `all`. */
  ghost predicate Printed(all: string, done: string, rest: string, out: string, room: nat) {
    all == done + rest && |out| == (if |done| < room then |done| else room) && out == done[..|out|]
  }

  /** As many characters of `s` as fit before `limit` have been put at `start`, and `i` is where they end. */
  ghost predicate Placed(b: seq<char>, b': seq<char>, start: nat, limit: nat, s: string, i: nat) {
    && start <= limit < |b| == |b'| && i == start + (if |s| <= limit - start then |s| else limit - start)
    && b'[..i] == b[..start] + s[..i - start] && b'[i..] == b[i..]
  }

  lemma MinusPlaced(b: seq<char>, b1: seq<char>, b': seq<char>, start: nat, limit: nat, s: string, i: nat)
    requires start < limit < |b| && b1 == b[start := '-'] && Placed(b1, b', start + 1, limit, s, i)
    ensures Placed(b, b', start, limit, "-" + s, i)
  {
    assert ("-" + s)[..i - start] == "-" + s[..i - (start + 1)];
    assert b1[..start + 1] == b[..start] + "-";
    assert b1[i..] == b[i..];
  }

  /** As many characters of `s` as fit before `limit`. */
  method Put(str: array<char>, start: nat, limit: nat, s: string) returns (i: nat)
    requires start <= limit < str.Length
    modifies str
    ensures Placed(old(str[..]), str[..], start, limit, s, i)
  {
    i := start;
    while i - start < |s| && i < limit
      invariant start <= i <= limit && i - start <= |s|
      invariant str[..i] == old(str[..start]) + s[..i - start] && str[i..] == old(str[i..])
    {
      ghost var before := str[..i];
      str[i] := s[i - start];
      assert str[..i + 1] == before + [s[i - start]];
      assert s[..i - start + 1] == s[..i - start] + [s[i - start]];
      assert old(str[i..])[1..] == old(str[i + 1..]);
      i := i + 1;
    }
  }

  /** A number in a base, as far as it fits. */
  method PutNumber(str: array<char>, start: nat, limit: nat, n: nat, base: nat) returns (i: nat)
    requires start <= limit < str.Length && 2 <= base <= 36 && n < TWO64
    modifies str
    ensures Placed(old(str[..]), str[..], start, limit, Digits(n, base), i)
  {
    var buf := new char[65];
    Itoa(n, buf, base);
    var k := 0;
    ghost var d := Digits(n, base);
    DigitsPlain(n, base);
    assert forall j :: 0 <= j < |d| ==> buf[..|d|][j] == d[j];
    hide Digits;
    while buf[k] != NUL
      invariant 0 <= k <= |d| && |d| <= 64 && buf[..|d|] == d && buf[|d|] == NUL
      invariant forall j :: 0 <= j < |d| ==> buf[j] == d[j] != NUL
      decreases |d| - k
    {
      k := k + 1;
    }
    i := Put(str, start, limit, buf[..k]);
  }

  lemma {:induction false} LowPlain(n: nat, base: nat)
    requires 2 <= base <= 36
    ensures forall i :: 0 <= i < |LowFirst(n, base)| ==> LowFirst(n, base)[i] != NUL
  {
    hide Quot, Rem, DigitChar;
    if n > 0 {
      DigitValue(Rem(n, base));
      LowPlain(Quot(n, base), base);
    }
  }

  lemma DigitsPlain(n: nat, base: nat)
    requires 2 <= base <= 36
    ensures forall i :: 0 <= i < |Digits(n, base)| ==> Digits(n, base)[i] != NUL
  {
    LowPlain(n, base);
  }

  lemma PrintedMore(all: string, done: string, piece: string, rest: string, b: seq<char>, b': seq<char>, b0: seq<char>,
                    start: nat, limit: nat, i: nat)
    requires start < limit && Placed(b, b', start, limit, piece, i) &&
      Printed(all, done, piece + rest, b[..start], limit) && |b0| == |b| && b[start..] == b0[start..]
    ensures i <= limit < |b'| == |b0| && Printed(all, done + piece, rest, b'[..i], limit) && b'[i..] == b0[i..]
  {
    assert done + (piece + rest) == (done + piece) + rest;
    assert b[i..] == b[start..][i - start..] && b0[i..] == b0[start..][i - start..];
  }

  /** `vsnprintf`: exactly the first `size` - 1 characters of the whole output and a terminating zero; the rest of the
      buffer is not touched. */
  method Vsnprintf(str: array<char>, size: nat, format: string, args: seq<Arg>) returns (n: nat)
    requires 1 <= size <= str.Length && Fits(format, args)
    modifies str
    ensures var all := Expand(format, args);
      n == (if |all| < size - 1 then |all| else size - 1) && str[..n] == all[..n] && str[n] == NUL &&
      str[n + 1..] == old(str[n + 1..])
  {
    hide Expand, Fits, Suits, Piece, Digits, Placed, Printed, TakesArg;
    ghost var all := Expand(format, args);
    ghost var done := "";
    var i: nat, p: nat, k: nat := 0, 0, 0;
    assert format[0..] == format && args[0..] == args;
    PrintedStart(all, str[..], size - 1);
    while p < |format| && i < size - 1
      invariant p <= |format| && k <= |args| && i <= size - 1 && Fits(format[p..], args[k..])
      invariant Printed(all, done, Expand(format[p..], args[k..]), str[..][..i], size - 1) &&
        str[..][i..] == old(str[..])[i..]
    {
      ghost var b, start := str[..], i;
      Directive(format, args, p, k);
      if format[p] != '%' {
        i := Put(str, i, size - 1, [format[p]]);
        PrintedMore(all, done, [format[p]], Expand(format[p + 1..], args[k..]), b, str[..], old(str[..]), start,
                    size - 1, i);
        done := done + [format[p]];
        p := p + 1;
      } else if TakesArg(format[p + 1]) {
        ghost var piece := Piece(format[p + 1], args[k]);
        i := PutArg(str, i, size - 1, format[p + 1], args[k]);
        PrintedMore(all, done, piece, Expand(format[p + 2..], args[k + 1..]), b, str[..], old(str[..]), start, size - 1,
                    i);
        done := done + piece;
        p := p + 2;
        k := k + 1;
      } else {
        i := Put(str, i, size - 1, [format[p + 1]]);
        PrintedMore(all, done, [format[p + 1]], Expand(format[p + 2..], args[k..]), b, str[..], old(str[..]), start,
                    size - 1, i);
        done := done + [format[p + 1]];
        p := p + 2;
      }
    }
    AtEnd(format, args, p, k);
    PrintedEnd(all, done, Expand(format[p..], args[k..]), old(str[..]), str[..], i, size - 1);
    str[i] := NUL;
    n := i;
  }

  lemma PrintedStart(all: string, b: seq<char>, room: nat)
    ensures Printed(all, "", all, b[..0], room) && b[0..] == b
  {
  }

  /** Nothing is left, or there is no room left. */
  lemma PrintedEnd(all: string, done: string, rest: string, b0: seq<char>, b: seq<char>, i: nat, room: nat)
    requires i <= room < |b| == |b0| && Printed(all, done, rest, b[..i], room) && b[i..] == b0[i..] &&
      (rest == "" || i == room)
    ensures var r := b[i := NUL];
      i == (if |all| < room then |all| else room) && r[..i] == all[..i] && r[i + 1..] == b0[i + 1..]
  {
    assert b[i := NUL][i + 1..] == b[i..][1..] && b0[i + 1..] == b0[i..][1..];
    assert b[i := NUL][..i] == b[..i];
    assert all[..i] == done[..i];
  }

  /** What one directive with an argument prints. */
  method PutArg(str: array<char>, start: nat, limit: nat, d: char, arg: Arg) returns (i: nat)
    requires start < limit < str.Length && TakesArg(d) && Suits(d, arg)
    modifies str
    ensures Placed(old(str[..]), str[..], start, limit, Piece(d, arg), i)
  {
    hide Digits, Placed;
    if d == 's' {
      i := Put(str, start, limit, arg.s);
    } else if d == 'c' {
      i := Put(str, start, limit, [(arg.bits % 256) as char]);
    } else if d == 'd' && arg.bits >= TWO63 {
      ghost var before := str[..];
      str[start] := '-';
      ghost var minus := str[..];
      assert minus == before[start := '-'];
      i := PutNumber(str, start + 1, limit, TWO64 - arg.bits, 10);
      MinusPlaced(before, minus, str[..], start, limit, Digits(TWO64 - arg.bits, 10), i);
    } else if d == 'd' || d == 'u' {
      i := PutNumber(str, start, limit, arg.bits, 10);
    } else {
      i := PutNumber(str, start, limit, arg.bits, 16);
    }
  }

  lemma Directive(format: string, args: seq<Arg>, p: nat, k: nat)
    requires p < |format| && k <= |args| && Fits(format[p..], args[k..])
    ensures format[p] != '%' ==>
      Fits(format[p + 1..], args[k..]) &&
      Expand(format[p..], args[k..]) == [format[p]] + Expand(format[p + 1..], args[k..])
    ensures format[p] == '%' ==> p + 1 < |format|
    ensures format[p] == '%' && TakesArg(format[p + 1]) ==>
      k < |args| && Suits(format[p + 1], args[k]) && Fits(format[p + 2..], args[k + 1..]) &&
      Expand(format[p..], args[k..]) == Piece(format[p + 1], args[k]) + Expand(format[p + 2..], args[k + 1..])
    ensures format[p] == '%' && !TakesArg(format[p + 1]) ==>
      Fits(format[p + 2..], args[k..]) &&
      Expand(format[p..], args[k..]) == [format[p + 1]] + Expand(format[p + 2..], args[k..])
  {
    hide Piece, Suits;
    assert format[p..][1..] == format[p + 1..];
    if |format[p..]| >= 2 {
      assert format[p..][2..] == format[p + 2..];
    }
    if k < |args| {
      assert args[k..][1..] == args[k + 1..];
    }
  }

  lemma AtEnd(format: string, args: seq<Arg>, p: nat, k: nat)
    requires p <= |format| && k <= |args| && Fits(format[p..], args[k..])
    ensures p == |format| ==> Expand(format[p..], args[k..]) == ""
  {
  }
}
