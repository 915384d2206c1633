/**
  The Python text built-ins that `uuid.UUID(hex)` relies on: `str.replace`
  with an empty replacement, `str.strip` of a set of characters,
  `int(s, 16)` and `repr(s)`.
*/
module PyText {
  import opened Options
  import Hex

  /** `s.replace(pat, '')`: every occurrence of `pat`, found left to right without overlap, removed. */
  function Remove(s: string, pat: string): (r: string)
    requires |pat| > 0
    ensures |r| <= |s|
    decreases |s|
  {
    if |s| < |pat| then s
    else if s[..|pat|] == pat then Remove(s[|pat|..], pat)
    else [s[0]] + Remove(s[1..], pat)
  }

  /** Removing a single character leaves none of it. */
  lemma {:induction false} RemoveCharGone(s: string, c: char)
    ensures forall i :: 0 <= i < |Remove(s, [c])| ==> Remove(s, [c])[i] != c
    decreases |s|
  {
    if |s| >= 1 {
      RemoveCharGone(s[1..], c);
    }
  }

  /** An occurrence at the front is removed, and the search goes on after it. */
  lemma RemoveMatch(s: string, pat: string)
    requires |pat| > 0 && |s| >= |pat| && s[..|pat|] == pat
    ensures Remove(s, pat) == Remove(s[|pat|..], pat)
  {
  }

  /** Without an occurrence at the front, the first character stays. */
  lemma RemoveMiss(s: string, pat: string)
    requires |pat| > 0 && |s| >= |pat| && s[..|pat|] != pat
    ensures Remove(s, pat) == [s[0]] + Remove(s[1..], pat)
  {
  }

  /** A text without the first character of `pat` holds no occurrence, so nothing is removed. */
  lemma {:induction false} RemoveAbsent(s: string, pat: string)
    requires |pat| > 0 && forall i :: 0 <= i < |s| ==> s[i] != pat[0]
    ensures Remove(s, pat) == s
    decreases |s|
  {
    if |s| >= |pat| {
      assert s[..|pat|][0] != pat[0];
      RemoveAbsent(s[1..], pat);
      assert s == [s[0]] + s[1..];
    }
  }

  /** Removing one character from a concatenation removes it from each part. */
  lemma {:induction false} RemoveCharAppend(a: string, b: string, c: char)
    ensures Remove(a + b, [c]) == Remove(a, [c]) + Remove(b, [c])
    decreases |a|
  {
    if |a| > 0 {
      RemoveCharAppend(a[1..], b, c);
      assert (a + b)[1..] == a[1..] + b;
      assert (a + b)[..1] == a[..1];
    } else {
      assert a + b == b;
    }
  }

  /** `s.lstrip(chars)`. */
  function StripStart(s: string, chars: set<char>): (r: string)
    ensures |r| <= |s|
    ensures |r| > 0 ==> r[0] !in chars
    decreases |s|
  {
    if |s| > 0 && s[0] in chars then StripStart(s[1..], chars) else s
  }

  /** What `lstrip` leaves is a suffix of the text. */
  lemma {:induction false} StripStartSuffix(s: string, chars: set<char>)
    ensures StripStart(s, chars) == s[|s| - |StripStart(s, chars)|..]
    decreases |s|
  {
    if |s| > 0 && s[0] in chars {
      StripStartSuffix(s[1..], chars);
    }
  }

  /** `s.rstrip(chars)`. */
  function StripEnd(s: string, chars: set<char>): (r: string)
    ensures |r| <= |s|
    ensures |r| > 0 ==> r[|r| - 1] !in chars
    decreases |s|
  {
    if |s| > 0 && s[|s| - 1] in chars then StripEnd(s[..|s| - 1], chars) else s
  }

  /** What `rstrip` leaves is a prefix of the text. */
  lemma {:induction false} StripEndPrefix(s: string, chars: set<char>)
    ensures StripEnd(s, chars) == s[..|StripEnd(s, chars)|]
    decreases |s|
  {
    if |s| > 0 && s[|s| - 1] in chars {
      StripEndPrefix(s[..|s| - 1], chars);
    }
  }

  /** `s.strip(chars)`: the leading and the trailing run of characters from `chars` removed. */
  function Strip(s: string, chars: set<char>): (r: string)
    ensures |r| <= |s|
  {
    StripEnd(StripStart(s, chars), chars)
  }

  /** What `strip` leaves neither starts nor ends with a character of `chars`. */
  lemma StripEnds(s: string, chars: set<char>)
    ensures var r := Strip(s, chars); |r| > 0 ==> r[0] !in chars && r[|r| - 1] !in chars
  {
    StripEndPrefix(StripStart(s, chars), chars);
  }

  /** A text that neither starts nor ends with a character of `chars` is left as it is. */
  lemma StripNothing(s: string, chars: set<char>)
    requires |s| > 0 && s[0] !in chars && s[|s| - 1] !in chars
    ensures Strip(s, chars) == s
  {
  }

  /** One character of `chars` on each side of a text that has none at its ends is all that goes. */
  lemma StripEnclosed(open: char, s: string, close: char, chars: set<char>)
    requires open in chars && close in chars
    requires |s| > 0 && s[0] !in chars && s[|s| - 1] !in chars
    ensures Strip([open] + s + [close], chars) == s
  {
    var t := [open] + s + [close];
    var u := s + [close];
    assert t[1..] == u && u[0] == s[0];
    assert StripStart(t, chars) == u;
    assert u[..|s|] == s && u[|u| - 1] == close;
    assert StripEnd(u, chars) == StripEnd(s, chars);
  }

  /**
    The white space `int()` skips around a literal: ASCII tab, line feed,
    vertical tab, form feed, carriage return and space, and the non-ASCII
    characters Python counts as white space (which `int()` first turns into
    spaces). The ASCII separators U+001C to U+001F are not among them.
  */
  predicate IsIntSpace(c: char) {
    c == ' ' || '\t' <= c <= '\r' || c == '\U{85}' || c == '\U{A0}' || c == '\U{1680}'
    || '\U{2000}' <= c <= '\U{200A}' || c == '\U{2028}' || c == '\U{2029}' || c == '\U{202F}'
    || c == '\U{205F}' || c == '\U{3000}'
  }

  /** The text with its leading white space skipped. */
  function SkipSpace(s: string): (r: string)
    ensures |r| <= |s| && r == s[|s| - |r|..]
    ensures |r| > 0 ==> !IsIntSpace(r[0])
    decreases |s|
  {
    if |s| > 0 && IsIntSpace(s[0]) then SkipSpace(s[1..]) else s
  }

  predicate AllSpace(s: string) {
    forall i :: 0 <= i < |s| ==> IsIntSpace(s[i])
  }

  predicate IsDigitOrUnderscore(c: char) {
    Hex.IsDigit(c) || c == '_'
  }

  predicate IsRun(ds: string) {
    forall i :: 0 <= i < |ds| ==> IsDigitOrUnderscore(ds[i])
  }

  /** The length of the leading run of hexadecimal digits and underscores. */
  function RunLength(s: string): (n: nat)
    ensures n <= |s| && IsRun(s[..n])
    ensures n < |s| ==> !IsDigitOrUnderscore(s[n])
    decreases |s|
  {
    if |s| > 0 && IsDigitOrUnderscore(s[0]) then
      var n := 1 + RunLength(s[1..]);
      assert s[..n] == [s[0]] + s[1..][..n - 1];
      n
    else 0
  }

  /** Digits with single underscores between them: not empty, no underscore first, last or twice in a row. */
  predicate WellGrouped(ds: string) {
    |ds| > 0 && ds[0] != '_' && ds[|ds| - 1] != '_'
    && forall i :: 0 <= i < |ds| - 1 ==> !(ds[i] == '_' && ds[i + 1] == '_')
  }

  /** The values of the digits of a run, its underscores dropped. */
  function RunDigits(ds: string): (ns: seq<Hex.Nibble>)
    requires IsRun(ds)
    ensures |ns| <= |ds|
    decreases |ds|
  {
    if |ds| == 0 then []
    else
      assert IsDigitOrUnderscore(ds[0]) && IsRun(ds[1..]);
      if ds[0] == '_' then RunDigits(ds[1..]) else [Hex.Value(ds[0])] + RunDigits(ds[1..])
  }

  /** The text after the optional sign and the optional `0x`/`0X` prefix (and one underscore after it). */
  function Unprefixed(b: string): (c: string)
    ensures |c| <= |b|
  {
    if |b| >= 2 && b[0] == '0' && (b[1] == 'x' || b[1] == 'X') then
      if |b| >= 3 && b[2] == '_' then b[3..] else b[2..]
    else b
  }

  /** Whether the literal, past its leading white space, opens with a minus sign. */
  predicate IsNegative(s: string) {
    var a := SkipSpace(s);
    |a| > 0 && a[0] == '-'
  }

  /** The literal past its white space, its sign and its prefix: the digits, then what follows them. */
  function Digits(s: string): (c: string)
    ensures |c| <= |s|
  {
    var a := SkipSpace(s);
    Unprefixed(if |a| > 0 && (a[0] == '+' || a[0] == '-') then a[1..] else a)
  }

  /**
    `int(s, 16)`: white space, an optional sign, an optional `0x` prefix, hex
    digits with single underscores between them, white space; `None` where
    Python raises `ValueError`.
  */
  function ParseHexInt(s: string): (r: Option<int>)
  {
    var c := Digits(s);
    var n := RunLength(c);
    if WellGrouped(c[..n]) && AllSpace(c[n..]) then
      var v: int := Hex.NibbleValue(RunDigits(c[..n]));
      Some(if IsNegative(s) then -v else v)
    else None
  }

  /** A literal of `k` characters spells a number of at most `k` digits, negative only after a minus sign. */
  lemma ParseHexIntBounds(s: string)
    ensures var r := ParseHexInt(s);
      r.Some? ==> -(Hex.Pow16(|s|) as int) < r.value < Hex.Pow16(|s|) && (r.value < 0 ==> '-' in s)
  {
    var c := Digits(s);
    var n := RunLength(c);
    if WellGrouped(c[..n]) && AllSpace(c[n..]) {
      Hex.Pow16Grows(|RunDigits(c[..n])|, |s|);
      NegativeHasMinus(s);
    }
  }

  lemma NegativeHasMinus(s: string)
    ensures IsNegative(s) ==> '-' in s
  {
    var a := SkipSpace(s);
    if |a| > 0 {
      assert a[0] == s[|s| - |a|];
    }
  }

  /** A run of hexadecimal digits only. */
  predicate AllHex(s: string) {
    forall i :: 0 <= i < |s| ==> Hex.IsDigit(s[i])
  }

  function DigitValues(s: string): (ns: seq<Hex.Nibble>)
    requires AllHex(s)
    ensures |ns| == |s| && forall i :: 0 <= i < |s| ==> ns[i] == Hex.Value(s[i])
  {
    seq(|s|, i requires 0 <= i < |s| => Hex.Value(s[i]))
  }

  lemma {:induction false} RunOfDigits(s: string)
    requires AllHex(s)
    ensures RunLength(s) == |s| && RunDigits(s) == DigitValues(s)
    decreases |s|
  {
    if |s| > 0 {
      RunOfDigits(s[1..]);
      assert DigitValues(s) == [Hex.Value(s[0])] + DigitValues(s[1..]);
    }
  }

  /** Bare hex digits, as `str(uuid)` writes them without hyphens, read as the number they spell. */
  lemma PlainHexInt(s: string)
    requires |s| > 0 && AllHex(s)
    ensures ParseHexInt(s) == Some(Hex.NibbleValue(DigitValues(s)))
  {
    RunOfDigits(s);
    assert s[..|s|] == s;
    assert !IsIntSpace(s[0]) && s[0] != '+' && s[0] != '-';
    assert SkipSpace(s) == s;
    assert Digits(s) == s by {
      if |s| >= 2 {
        assert s[1] != 'x' && s[1] != 'X';
      }
    }
    assert !IsNegative(s);
  }

  /** A literal must open with white space, a sign or a digit: anything else is refused at once. */
  lemma BadFirstCharacter(s: string)
    requires |s| > 0 && !IsIntSpace(s[0]) && s[0] != '+' && s[0] != '-' && !Hex.IsDigit(s[0])
    ensures ParseHexInt(s) == None
  {
    assert SkipSpace(s) == s;
    assert Digits(s) == s;
  }

  /** The quote `repr` chooses: a double quote when the text holds a single quote and no double quote. */
  function QuoteFor(s: string): char {
    if '\'' in s && '"' !in s then '"' else '\''
  }

  /** The characters `repr` writes as `\xhh`: ASCII controls, DEL, the C1 controls, no-break space and soft hyphen. */
  predicate IsHexEscaped(c: char) {
    c < ' ' || '\U{7F}' <= c <= '\U{A0}' || c == '\U{AD}'
  }

  /** One character of `repr(s)` quoted with `q`. */
  function ReprChar(c: char, q: char): (r: string)
    ensures 1 <= |r| <= 4
    ensures |r| == 1 <==> r == [c]
    ensures q != '\\' ==> r[0] != q
  {
    if c == q || c == '\\' then ['\\', c]
    else if c == '\t' then "\\t"
    else if c == '\n' then "\\n"
    else if c == '\r' then "\\r"
    else if IsHexEscaped(c) then ['\\', 'x', Hex.Digit(c as int / 16), Hex.Digit(c as int % 16)]
    else [c]
  }

  function ReprBody(s: string, q: char): (r: string)
    ensures |r| <= 4 * |s|
    decreases |s|
  {
    if |s| == 0 then "" else ReprChar(s[0], q) + ReprBody(s[1..], q)
  }

  /** `repr(s)`. */
  function Repr(s: string): (r: string)
    ensures 2 <= |r| <= 4 * |s| + 2 && r[0] == r[|r| - 1] == QuoteFor(s)
  {
    [QuoteFor(s)] + ReprBody(s, QuoteFor(s)) + [QuoteFor(s)]
  }

  /** What `"%.200R" % s` writes: `repr(s)` cut to 200 characters. */
  function TruncatedRepr(s: string): (r: string)
    ensures |s| <= 49 ==> r == Repr(s)
  {
    var full := Repr(s);
    if |full| <= 200 then full else full[..200]
  }

  predicate IsReprPlain(c: char) {
    c != '\'' && c != '\\' && ' ' <= c && !('\U{7F}' <= c <= '\U{A0}') && c != '\U{AD}'
  }

  /** A text of plain characters is written between single quotes as it is. */
  lemma {:induction false} PlainRepr(s: string)
    requires forall i :: 0 <= i < |s| ==> IsReprPlain(s[i])
    ensures ReprBody(s, '\'') == s
    decreases |s|
  {
    if |s| > 0 {
      PlainRepr(s[1..]);
      assert s == [s[0]] + s[1..];
    }
  }

  /** A short text of plain characters is reported between single quotes as it is. */
  lemma PlainTruncatedRepr(s: string)
    requires |s| <= 49 && forall i :: 0 <= i < |s| ==> IsReprPlain(s[i])
    ensures TruncatedRepr(s) == "'" + s + "'"
  {
    PlainRepr(s);
    assert '\'' !in s by {
      forall i | 0 <= i < |s| ensures s[i] != '\'' {
        assert IsReprPlain(s[i]);
      }
    }
  }

  /** Reading back the body of a `repr` quoted with `q`: the escapes `repr` writes, and no bare quote. */
  function ReadReprBody(b: string, q: char): Option<string>
    decreases |b|
  {
    if |b| == 0 then Some("")
    else if b[0] == q then None
    else if b[0] != '\\' then Prefix(b[0], ReadReprBody(b[1..], q))
    else if |b| < 2 then None
    else if b[1] == q || b[1] == '\\' then Prefix(b[1], ReadReprBody(b[2..], q))
    else if b[1] == 't' then Prefix('\t', ReadReprBody(b[2..], q))
    else if b[1] == 'n' then Prefix('\n', ReadReprBody(b[2..], q))
    else if b[1] == 'r' then Prefix('\r', ReadReprBody(b[2..], q))
    else if b[1] == 'x' && |b| >= 4 && Hex.IsDigit(b[2]) && Hex.IsDigit(b[3]) then
      Prefix((Hex.Value(b[2]) * 16 + Hex.Value(b[3])) as char, ReadReprBody(b[4..], q))
    else None
  }

  function Prefix(c: char, r: Option<string>): Option<string> {
    if r.Some? then Some([c] + r.value) else None
  }

  /** The body of `repr(s)` reads back as `s`. */
  lemma {:induction false} ReprRoundTrip(s: string, q: char)
    requires q == '\'' || q == '"'
    ensures ReadReprBody(ReprBody(s, q), q) == Some(s)
    decreases |s|
  {
    if |s| > 0 {
      ReprRoundTrip(s[1..], q);
      ReadReprChar(s[0], q, ReprBody(s[1..], q));
      assert s == [s[0]] + s[1..];
    }
  }

  lemma ReadReprChar(c: char, q: char, rest: string)
    requires q == '\'' || q == '"'
    ensures ReadReprBody(ReprChar(c, q) + rest, q) == Prefix(c, ReadReprBody(rest, q))
  {
    var t := ReprChar(c, q) + rest;
    if |ReprChar(c, q)| == 1 {
      assert t[1..] == rest;
    } else if |ReprChar(c, q)| == 2 {
      assert t[2..] == rest;
    } else {
      assert t[4..] == rest;
      assert Hex.Value(t[2]) * 16 + Hex.Value(t[3]) == c as int;
    }
  }
}
