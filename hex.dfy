/** Hexadecimal digits, as written by `str(uuid)` and by JSON `\uXXXX` escapes. */
module Hex {

  type Nibble = n: int | 0 <= n < 16

  /** The lower-case digit Python writes for a nibble. */
  function Digit(n: Nibble): (c: char)
    ensures IsDigit(c) && Value(c) == n
    ensures !('A' <= c <= 'F')
  {
    if n < 10 then '0' + n as char else 'a' + (n - 10) as char
  }

  /** A hexadecimal digit of either case, as parsers accept. */
  predicate IsDigit(c: char) {
    '0' <= c <= '9' || 'a' <= c <= 'f' || 'A' <= c <= 'F'
  }

  function Value(c: char): Nibble
    requires IsDigit(c)
  {
    if '0' <= c <= '9' then c as int - '0' as int
    else if 'a' <= c <= 'f' then c as int - 'a' as int + 10
    else c as int - 'A' as int + 10
  }

  /** The lower-case form of a digit: the digit `Digit` writes for its value. */
  lemma DigitOfValue(c: char)
    requires IsDigit(c) && !('A' <= c <= 'F')
    ensures Digit(Value(c)) == c
  {
  }

  /** Exactly four lower-case digits: Python's `'{0:04x}'.format(n)`. */
  function Four(n: int): (s: string)
    requires 0 <= n < 0x10000
    ensures |s| == 4 && forall i :: 0 <= i < 4 ==> IsDigit(s[i])
    ensures FourValue(s) == n
  {
    var q1 := n / 16;
    var q2 := q1 / 16;
    [Digit(q2 / 16), Digit(q2 % 16), Digit(q1 % 16), Digit(n % 16)]
  }

  /** The number four hexadecimal digits denote. */
  function FourValue(s: string): int
    requires |s| == 4 && forall i :: 0 <= i < 4 ==> IsDigit(s[i])
  {
    Value(s[0]) * 0x1000 + Value(s[1]) * 0x100 + Value(s[2]) * 0x10 + Value(s[3])
  }

  function Pow16(width: nat): nat {
    if width == 0 then 1 else 16 * Pow16(width - 1)
  }

  /** The number a sequence of nibbles denotes, most significant first. */
  function NibbleValue(ns: seq<Nibble>): (n: nat)
    ensures n < Pow16(|ns|)
    decreases |ns|
  {
    if |ns| == 0 then 0 else NibbleValue(ns[..|ns| - 1]) * 16 + ns[|ns| - 1]
  }

  /** The low `width` nibbles of `n`, most significant first. */
  function NibblesOf(n: nat, width: nat): (ns: seq<Nibble>)
    ensures |ns| == width
    decreases width
  {
    if width == 0 then [] else NibblesOf(n / 16, width - 1) + [n % 16]
  }

  /** Writing a number that fits and reading it back gives the number. */
  lemma {:induction false} NibblesOfValue(n: nat, width: nat)
    requires n < Pow16(width)
    ensures NibbleValue(NibblesOf(n, width)) == n
    decreases width
  {
    if width > 0 {
      NibblesOfValue(n / 16, width - 1);
      assert NibblesOf(n, width)[..width - 1] == NibblesOf(n / 16, width - 1);
    }
  }

  /** Reading nibbles and writing the number back in as many gives the nibbles. */
  lemma {:induction false} ValueNibbles(ns: seq<Nibble>)
    ensures NibblesOf(NibbleValue(ns), |ns|) == ns
    decreases |ns|
  {
    if |ns| > 0 {
      var init, last := ns[..|ns| - 1], ns[|ns| - 1];
      ValueNibbles(init);
      var v := NibbleValue(ns);
      assert v == NibbleValue(init) * 16 + last;
      assert v / 16 == NibbleValue(init) && v % 16 == last;
      assert ns == init + [last];
    }
  }

  lemma {:induction false} Pow16Add(a: nat, b: nat)
    ensures Pow16(a + b) == Pow16(a) * Pow16(b)
    decreases b
  {
    if b > 0 {
      Pow16Add(a, b - 1);
    }
  }

  lemma {:induction false} Pow16Grows(a: nat, b: nat)
    requires a <= b
    ensures Pow16(a) <= Pow16(b)
    decreases b
  {
    if a < b {
      Pow16Grows(a, b - 1);
    }
  }
}
