/**
  The text of a JSON string, as Python's `json.dumps` writes it with its
  default `ensure_ascii=True` and as a JSON reader takes it back (RFC 8259,
  section 7), and the one document the boundary writes for an error:
  an object with the single member `error`.
*/
module JsonText {
  import opened Options
  import Hex

  /** A character `json.dumps` copies as it is: printable ASCII other than the quote and the backslash. */
  predicate IsPlain(c: char) {
    ' ' <= c <= '~' && c != '"' && c != '\\'
  }

  predicate AllPlain(s: string) {
    forall i :: 0 <= i < |s| ==> IsPlain(s[i])
  }

  /** Printable ASCII throughout: what `ensure_ascii` output is made of. */
  predicate Printable(s: string) {
    forall i :: 0 <= i < |s| ==> ' ' <= s[i] <= '~'
  }

  /** `"\\u%04x" % n`. */
  function UnicodeEscape(n: int): (s: string)
    requires 0 <= n < 0x10000
    ensures |s| == 6 && Printable(s)
  {
    "\\u" + Hex.Four(n)
  }

  /**
    How `json.dumps` writes one character: the two-letter escapes for the
    quote, the backslash and five control characters, `\uXXXX` for any other
    character outside printable ASCII, and a surrogate pair of such escapes
    for a character beyond the Basic Multilingual Plane.
  */
  function EscapeChar(c: char): (s: string)
    ensures IsPlain(c) ==> s == [c]
    ensures !IsPlain(c) ==> |s| >= 2 && s[0] == '\\'
    ensures Printable(s)
  {
    if c == '"' then "\\\""
    else if c == '\\' then "\\\\"
    else if c == '\n' then "\\n"
    else if c == '\r' then "\\r"
    else if c == '\t' then "\\t"
    else if c == '\U{8}' then "\\b"
    else if c == '\U{C}' then "\\f"
    else if IsPlain(c) then [c]
    else if c as int < 0x10000 then UnicodeEscape(c as int)
    else
      var n := c as int - 0x10000;
      UnicodeEscape(0xD800 + n / 0x400) + UnicodeEscape(0xDC00 + n % 0x400)
  }

  /** The characters between the quotes of `json.dumps(s)`. */
  function Escape(s: string): (e: string)
    ensures AllPlain(s) ==> e == s
    ensures Printable(e)
  {
    if |s| == 0 then ""
    else
      var head, tail := EscapeChar(s[0]), Escape(s[1..]);
      assert AllPlain(s) ==> AllPlain(s[1..]) && head == [s[0]];
      assert forall i :: |head| <= i < |head + tail| ==> (head + tail)[i] == tail[i - |head|];
      head + tail
  }

  /** Four hexadecimal digits at the head of `s`. */
  predicate HexAhead(s: string) {
    |s| >= 4 && Hex.IsDigit(s[0]) && Hex.IsDigit(s[1]) && Hex.IsDigit(s[2]) && Hex.IsDigit(s[3])
  }

  /** The code unit four hexadecimal digits at the head of `s` denote. */
  function UnitAhead(s: string): (n: int)
    requires HexAhead(s)
    ensures 0 <= n < 0x10000
  {
    Hex.FourValue(s[..4])
  }

  /**
    The string whose body starts `s`, read up to its closing quote: the
    decoded characters and what follows the quote. `None` when the quote is
    missing, a control character is unescaped, an escape is unknown, or a
    surrogate is unpaired.
  */
  function ReadString(s: string): (r: Option<(string, string)>)
    ensures r.Some? ==> |r.value.1| < |s|
    decreases |s|
  {
    if |s| == 0 then None
    else if s[0] == '"' then Some(("", s[1..]))
    else if s[0] < ' ' then None
    else if s[0] != '\\' then Prepend(s[0], ReadString(s[1..]))
    else if |s| < 2 then None
    else if s[1] == '"' then Prepend('"', ReadString(s[2..]))
    else if s[1] == '\\' then Prepend('\\', ReadString(s[2..]))
    else if s[1] == '/' then Prepend('/', ReadString(s[2..]))
    else if s[1] == 'b' then Prepend('\U{8}', ReadString(s[2..]))
    else if s[1] == 'f' then Prepend('\U{C}', ReadString(s[2..]))
    else if s[1] == 'n' then Prepend('\n', ReadString(s[2..]))
    else if s[1] == 'r' then Prepend('\r', ReadString(s[2..]))
    else if s[1] == 't' then Prepend('\t', ReadString(s[2..]))
    else if s[1] != 'u' || !HexAhead(s[2..]) then None
    else
      var hi := UnitAhead(s[2..]);
      if hi < 0xD800 || 0xE000 <= hi then Prepend(hi as char, ReadString(s[6..]))
      else if 0xDC00 <= hi then None
      else if |s| < 8 || s[6] != '\\' || s[7] != 'u' || !HexAhead(s[8..]) then None
      else
        var lo := UnitAhead(s[8..]);
        if lo < 0xDC00 || 0xE000 <= lo then None
        else Prepend(Combine(hi, lo), ReadString(s[12..]))
  }

  /** The character a surrogate pair stands for. */
  function Combine(hi: int, lo: int): char
    requires 0xD800 <= hi < 0xDC00 && 0xDC00 <= lo < 0xE000
  {
    (0x10000 + (hi - 0xD800) * 0x400 + (lo - 0xDC00)) as char
  }

  function Prepend(c: char, r: Option<(string, string)>): Option<(string, string)> {
    if r.None? then None else Some(([c] + r.value.0, r.value.1))
  }

  /** The two-letter escapes and the plain characters. */
  lemma ReadShortEscape(c: char, rest: string)
    requires IsPlain(c) || c == '"' || c == '\\' || c == '\n' || c == '\r' || c == '\t' || c == '\U{8}' || c == '\U{C}'
    ensures ReadString(EscapeChar(c) + rest) == Prepend(c, ReadString(rest))
  {
    var s := EscapeChar(c) + rest;
    if IsPlain(c) {
      assert s[1..] == rest;
    } else {
      assert s[2..] == rest;
    }
  }

  /** What a reader sees of one `\uXXXX` escape: its code unit, then the rest. */
  lemma ReadUnit(n: int, rest: string)
    requires 0 <= n < 0x10000
    ensures var s := UnicodeEscape(n) + rest;
      s[0] == '\\' && s[1] == 'u' && HexAhead(s[2..]) && UnitAhead(s[2..]) == n && s[6..] == rest
  {
    var s := UnicodeEscape(n) + rest;
    assert s[2..][..4] == Hex.Four(n);
  }

  /** A `\uXXXX` escape of a character of the Basic Multilingual Plane. */
  lemma ReadUnitEscape(c: char, rest: string)
    requires !IsPlain(c) && c != '"' && c != '\\' && c != '\n' && c != '\r' && c != '\t' && c != '\U{8}' && c != '\U{C}'
    requires c as int < 0x10000
    ensures ReadString(EscapeChar(c) + rest) == Prepend(c, ReadString(rest))
  {
    assert EscapeChar(c) == UnicodeEscape(c as int);
    ReadEscapedUnit(EscapeChar(c) + rest, c as int, rest);
  }

  /** A reader at a `\uXXXX` escape of a code unit that is not a surrogate takes it as that character. */
  lemma ReadEscapedUnit(s: string, n: int, rest: string)
    requires 0 <= n < 0xD800 || 0xE000 <= n < 0x10000
    requires s == UnicodeEscape(n) + rest
    ensures ReadString(s) == Prepend(n as char, ReadString(rest))
  {
    ReadUnit(n, rest);
  }

  /** How `json.dumps` writes a character beyond the Basic Multilingual Plane: two `\uXXXX` escapes. */
  lemma EscapePair(c: char)
    requires c as int >= 0x10000
    ensures var n := c as int - 0x10000;
      0 <= n < 0x100000
      && EscapeChar(c) == UnicodeEscape(0xD800 + n / 0x400) + UnicodeEscape(0xDC00 + n % 0x400)
  {
    SplitUnits(c as int - 0x10000);
  }

  /** A surrogate pair of escapes for a character beyond the Basic Multilingual Plane. */
  lemma ReadPairEscape(c: char, rest: string)
    requires c as int >= 0x10000
    ensures ReadString(EscapeChar(c) + rest) == Prepend(c, ReadString(rest))
  {
    var n := c as int - 0x10000;
    EscapePair(c);
    CombineSplit(c);
    var hi := 0xD800 + n / 0x400;
    var lo := 0xDC00 + n % 0x400;
    ReadEscapedPair(EscapeChar(c) + rest, hi, lo, rest);
  }

  /** Two escapes of a high and a low surrogate read as the one character they stand for. */
  lemma ReadEscapedPair(s: string, hi: int, lo: int, rest: string)
    requires 0xD800 <= hi < 0xDC00 && 0xDC00 <= lo < 0xE000
    requires s == UnicodeEscape(hi) + UnicodeEscape(lo) + rest
    ensures ReadString(s) == Prepend(Combine(hi, lo), ReadString(rest))
  {
    var t := UnicodeEscape(lo) + rest;
    assert s == UnicodeEscape(hi) + t;
    ReadUnit(hi, t);
    ReadUnit(lo, rest);
    assert s[6..] == t;
    assert s[6] == t[0] && s[7] == t[1];
    assert s[8..] == t[2..];
    assert s[12..] == t[6..];
    ReadPair(s, hi, lo);
  }

  /** Combining the halves `json.dumps` writes gives the character back. */
  lemma CombineSplit(c: char)
    requires c as int >= 0x10000
    ensures var n := c as int - 0x10000;
      0 <= n < 0x100000 && Combine(0xD800 + n / 0x400, 0xDC00 + n % 0x400) == c
  {
    var n := c as int - 0x10000;
    SplitUnits(n);
    assert 0x10000 + n / 0x400 * 0x400 + n % 0x400 == c as int;
  }

  /** A reader at a surrogate pair of escapes takes both at once. */
  lemma ReadPair(s: string, hi: int, lo: int)
    requires |s| >= 12 && s[0] == '\\' && s[1] == 'u' && s[6] == '\\' && s[7] == 'u'
    requires HexAhead(s[2..]) && UnitAhead(s[2..]) == hi && 0xD800 <= hi < 0xDC00
    requires HexAhead(s[8..]) && UnitAhead(s[8..]) == lo && 0xDC00 <= lo < 0xE000
    ensures ReadString(s) == Prepend(Combine(hi, lo), ReadString(s[12..]))
  {
  }

  /** The high and low halves of a supplementary code point. */
  lemma SplitUnits(n: int)
    requires 0 <= n < 0x100000
    ensures 0 <= n / 0x400 < 0x400 && 0 <= n % 0x400 < 0x400
    ensures n / 0x400 * 0x400 + n % 0x400 == n
  {
  }

  /** Reading an escaped character gives the character back, whatever follows it. */
  lemma ReadEscapedChar(c: char, rest: string)
    ensures ReadString(EscapeChar(c) + rest) == Prepend(c, ReadString(rest))
  {
    if IsPlain(c) || c == '"' || c == '\\' || c == '\n' || c == '\r' || c == '\t' || c == '\U{8}' || c == '\U{C}' {
      ReadShortEscape(c, rest);
    } else if c as int < 0x10000 {
      ReadUnitEscape(c, rest);
    } else {
      ReadPairEscape(c, rest);
    }
  }

  /** Reading what `Escape` wrote, up to the closing quote, gives the string back. */
  lemma {:induction false} ReadEscaped(m: string, rest: string)
    ensures ReadString(Escape(m) + "\"" + rest) == Some((m, rest))
  {
    if |m| == 0 {
      assert Escape(m) + "\"" + rest == "\"" + rest;
    } else {
      var tail := Escape(m[1..]) + "\"" + rest;
      ReadEscaped(m[1..], rest);
      EscapeCons(m, rest);
      ReadEscapedStep(Escape(m) + "\"" + rest, m[0], tail, m[1..], rest);
      assert [m[0]] + m[1..] == m;
    }
  }

  /** `Escape` writes the first character, then the rest. */
  lemma EscapeCons(m: string, rest: string)
    requires |m| > 0
    ensures Escape(m) + "\"" + rest == EscapeChar(m[0]) + (Escape(m[1..]) + "\"" + rest)
  {
    assert Escape(m) == EscapeChar(m[0]) + Escape(m[1..]);
    Regroup(EscapeChar(m[0]), Escape(m[1..]), "\"", rest);
  }

  lemma Regroup(a: string, b: string, c: string, d: string)
    ensures a + b + c + d == a + (b + c + d)
  {
  }

  /** One escaped character in front of what reads back as `m`. */
  lemma ReadEscapedStep(s: string, c: char, tail: string, m: string, rest: string)
    requires s == EscapeChar(c) + tail && ReadString(tail) == Some((m, rest))
    ensures ReadString(s) == Some(([c] + m, rest))
  {
    ReadEscapedChar(c, tail);
  }

  /** `{"error": "` — what both error bodies start with. */
  const ErrorPrefix: string := "{\"error\": \""

  /** `json.dumps({"error": m})`. */
  function ErrorBody(m: string): string {
    ErrorPrefix + Escape(m) + "\"}"
  }

  /** `'{"error": "' + m + '"}'`: the body written by concatenation, with no escaping. */
  function ConcatErrorBody(m: string): string {
    ErrorPrefix + m + "\"}"
  }

  /** The `error` member of a body laid out as both writers lay it out; `None` if it does not read as one. */
  function ReadErrorBody(b: string): (m: Option<string>)
  {
    if |b| < |ErrorPrefix| || b[..|ErrorPrefix|] != ErrorPrefix then None
    else
      var r := ReadString(b[|ErrorPrefix|..]);
      if r.Some? && r.value.1 == "}" then Some(r.value.0) else None
  }

  /** The body `json.dumps` writes always reads back as the message. */
  lemma ErrorBodyRoundTrip(m: string)
    ensures ReadErrorBody(ErrorBody(m)) == Some(m)
  {
    var b := ErrorBody(m);
    assert b[..|ErrorPrefix|] == ErrorPrefix;
    assert b[|ErrorPrefix|..] == Escape(m) + "\"" + "}";
    ReadEscaped(m, "}");
  }

  /** For a message of plain characters the two writers agree. */
  lemma ConcatAgreesOnPlain(m: string)
    requires AllPlain(m)
    ensures ConcatErrorBody(m) == ErrorBody(m)
  {
  }

  /** A quote inside the message ends the concatenated string early: `a"b` does not read back. */
  lemma ConcatBreaksOnQuote()
    ensures ReadErrorBody(ConcatErrorBody("a\"b")) == None
  {
    var b := ConcatErrorBody("a\"b");
    assert b[..|ErrorPrefix|] == ErrorPrefix;
    var s := b[|ErrorPrefix|..];
    assert s == "a\"b\"}";
    assert s[1..] == "\"b\"}";
    assert ReadString(s[1..]) == Some(("", "b\"}"));
  }
}
