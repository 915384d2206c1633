/**
  UUIDs and their textual form: the 8-4-4-4-12 grouping of 32 hexadecimal
  digits of section 3 of RFC 4122, which `str(uuid)` writes in lower case.
*/
module Uuids {
  import opened Options
  import Hex
  import PyText

  datatype UuidDigits = UuidDigits(nibbles: seq<Hex.Nibble>)

  /** A UUID: 128 bits, held as its 32 hexadecimal digits. */
  type Uuid = u: UuidDigits | |u.nibbles| == 32 witness UuidDigits(seq(32, _ => 0))

  /** The positions of the four hyphens in the textual form. */
  predicate IsHyphenAt(j: int) {
    j == 8 || j == 13 || j == 18 || j == 23
  }

  /** How many hyphens precede text position `j`. */
  function HyphensBefore(j: int): nat {
    if j < 9 then 0 else if j < 14 then 1 else if j < 19 then 2 else if j < 24 then 3 else 4
  }

  /** The text position of digit `i`. */
  function Position(i: int): (j: int)
    requires 0 <= i < 32
    ensures 0 <= j < 36 && !IsHyphenAt(j) && j - HyphensBefore(j) == i
  {
    if i < 8 then i else if i < 12 then i + 1 else if i < 16 then i + 2 else if i < 20 then i + 3 else i + 4
  }

  /** `str(uuid)`: lower-case digits grouped 8-4-4-4-12. */
  function ToStr(u: Uuid): (s: string)
    ensures |s| == 36
    ensures forall j :: 0 <= j < 36 ==> (s[j] == '-' <==> IsHyphenAt(j))
    ensures forall i :: 0 <= i < 32 ==> s[Position(i)] == Hex.Digit(u.nibbles[i])
  {
    seq(36, j requires 0 <= j < 36 =>
      if IsHyphenAt(j) then '-' else Hex.Digit(u.nibbles[j - HyphensBefore(j)]))
  }

  /** The canonical textual form, with digits of either case. */
  predicate IsCanonical(s: string) {
    |s| == 36 && forall j :: 0 <= j < 36 ==> if IsHyphenAt(j) then s[j] == '-' else Hex.IsDigit(s[j])
  }


  /** One more than the largest 128-bit number. */
  const Bound: nat := 0x1_0000_0000_0000_0000_0000_0000_0000_0000

  /** 32 hexadecimal digits hold exactly the numbers below `Bound`. */
  lemma BoundDigits()
    ensures Hex.Pow16(32) == Bound
  {
    assert Hex.Pow16(8) == 0x1_0000_0000;
    Hex.Pow16Add(8, 8);
    Hex.Pow16Add(16, 16);
  }

  /** `uuid.int`: the 128-bit number the digits spell. */
  function Int(u: Uuid): (n: nat)
    ensures n < Bound
  {
    BoundDigits();
    Hex.NibbleValue(u.nibbles)
  }

  /** The UUID of a 128-bit number, as `uuid.UUID(int=n)` builds it. */
  function FromInt(n: nat): (u: Uuid)
    requires n < Bound
    ensures Int(u) == n
  {
    BoundDigits();
    Hex.NibblesOfValue(n, 32);
    UuidDigits(Hex.NibblesOf(n, 32))
  }

  /** A UUID is the UUID of its number. */
  lemma FromIntInt(u: Uuid)
    ensures FromInt(Int(u)) == u
  {
    Hex.ValueNibbles(u.nibbles);
  }

  /** One edit of a text: `s.replace(pat, '')` or `s.strip(chars)`. */
  datatype Edit = Replace(pat: string) | StripChars(chars: set<char>)

  function Apply(s: string, e: Edit): (r: string)
    ensures |r| <= |s|
  {
    match e
    case Replace(pat) => if |pat| > 0 then PyText.Remove(s, pat) else s
    case StripChars(chars) => PyText.Strip(s, chars)
  }

  /** A sequence of edits, applied in order. */
  function ApplyAll(s: string, edits: seq<Edit>): (r: string)
    ensures |r| <= |s|
    decreases |edits|
  {
    if |edits| == 0 then s else ApplyAll(Apply(s, edits[0]), edits[1..])
  }

  /** The edits `uuid.UUID(hex)` makes before reading digits. */
  const Cleaning: seq<Edit> := [Replace("urn:"), Replace("uuid:"), StripChars({'{', '}'}), Replace("-")]

  /**
    The text `uuid.UUID(hex)` hands to `int(_, 16)`: every `urn:` and then
    every `uuid:` removed, the braces around it stripped, every hyphen
    removed.
  */
  function Cleaned(s: string): (h: string)
    ensures |h| <= |s|
  {
    ApplyAll(s, Cleaning)
  }

  /** The cleaning, step by step. */
  lemma CleanedSteps(s: string)
    ensures Cleaned(s) == PyText.Remove(PyText.Strip(PyText.Remove(PyText.Remove(s, "urn:"), "uuid:"), {'{', '}'}), "-")
  {
    var e1 := Cleaning[1..];
    var e2 := e1[1..];
    var e3 := e2[1..];
    assert e1[0] == Replace("uuid:") && e2[0] == StripChars({'{', '}'}) && e3[0] == Replace("-") && e3[1..] == [];
    var a := PyText.Remove(s, "urn:");
    var b := PyText.Remove(a, "uuid:");
    var c := PyText.Strip(b, {'{', '}'});
    assert ApplyAll(s, Cleaning) == ApplyAll(a, e1);
    assert ApplyAll(a, e1) == ApplyAll(b, e2);
    assert ApplyAll(b, e2) == ApplyAll(c, e3);
    assert ApplyAll(c, e3) == ApplyAll(PyText.Remove(c, "-"), []);
  }

  /** No hyphen survives the cleaning, so `int(_, 16)` never sees a minus sign. */
  lemma CleanedHasNoHyphen(s: string)
    ensures forall i :: 0 <= i < |Cleaned(s)| ==> Cleaned(s)[i] != '-'
  {
    CleanedSteps(s);
    PyText.RemoveCharGone(PyText.Strip(PyText.Remove(PyText.Remove(s, "urn:"), "uuid:"), {'{', '}'}), '-');
  }

  const BadlyFormed: string := "badly formed hexadecimal UUID string"

  const OutOfRange: string := "int is out of range (need a 128-bit value)"

  const LiteralPrefix: string := "invalid literal for int() with base 16: "

  /** The `ValueError` text of `int(h, 16)`. */
  function InvalidLiteral(h: string): string {
    LiteralPrefix + PyText.TruncatedRepr(h)
  }

  /** The outcome of `uuid.UUID(hex)`: the UUID, or the text of the `ValueError` it raises. */
  datatype Parsed = Parsed(u: Uuid) | Invalid(message: string)

  /**
    What `uuid.UUID(hex)` does with the cleaned text: it must have 32
    characters, `int(_, 16)` must read it, and the number must fit in 128
    bits.
  */
  function ReadDigits(h: string): (r: Parsed)
    ensures |h| != 32 ==> r == Invalid(BadlyFormed)
    ensures |h| == 32 && PyText.ParseHexInt(h).None? ==> r == Invalid(InvalidLiteral(h))
    ensures |h| == 32 && PyText.ParseHexInt(h).Some? && !(0 <= PyText.ParseHexInt(h).value < Bound) ==> r == Invalid(OutOfRange)
    ensures r.Parsed? <==> |h| == 32 && PyText.ParseHexInt(h).Some? && 0 <= PyText.ParseHexInt(h).value < Bound
    ensures r.Parsed? ==> PyText.ParseHexInt(h) == Some(Int(r.u))
  {
    if |h| != 32 then Invalid(BadlyFormed)
    else match PyText.ParseHexInt(h)
      case None => Invalid(InvalidLiteral(h))
      case Some(n) => if 0 <= n < Bound then Parsed(FromInt(n)) else Invalid(OutOfRange)
  }

  /** The edits applied in order, then the digits read. */
  function ReadAfter(s: string, edits: seq<Edit>): Parsed
    decreases |edits|
  {
    if |edits| == 0 then ReadDigits(s) else ReadAfter(Apply(s, edits[0]), edits[1..])
  }

  lemma {:induction false} ReadAfterEdits(s: string, edits: seq<Edit>)
    ensures ReadAfter(s, edits) == ReadDigits(ApplyAll(s, edits))
    decreases |edits|
  {
    if |edits| > 0 {
      ReadAfterEdits(Apply(s, edits[0]), edits[1..]);
    }
  }

  /** `uuid.UUID(hex)`: the cleaning edits, then the digits read. */
  function FromHex(s: string): Parsed {
    ReadAfter(s, Cleaning)
  }

  /**
    The outcomes of `uuid.UUID(hex)`. The 128-bit range check never fails,
    since 32 characters hold at most 32 digits and no minus sign survives
    the cleaning.
  */
  lemma FromHexCases(s: string)
    ensures FromHex(s) == ReadDigits(Cleaned(s))
    ensures |Cleaned(s)| != 32 ==> FromHex(s) == Invalid(BadlyFormed)
    ensures |Cleaned(s)| == 32 ==> (FromHex(s).Parsed? <==> PyText.ParseHexInt(Cleaned(s)).Some?)
    ensures |Cleaned(s)| == 32 && PyText.ParseHexInt(Cleaned(s)).None? ==> FromHex(s) == Invalid(InvalidLiteral(Cleaned(s)))
    ensures FromHex(s).Parsed? ==> PyText.ParseHexInt(Cleaned(s)) == Some(Int(FromHex(s).u))
    ensures FromHex(s) != Invalid(OutOfRange)
  {
    var h := Cleaned(s);
    ReadAfterEdits(s, Cleaning);
    CleanedHasNoHyphen(s);
    assert '-' !in h;
    PyText.ParseHexIntBounds(h);
    BoundDigits();
  }

  /** Text shorter than 32 characters is refused before any digit is read. */
  lemma ShortTextBadlyFormed(s: string)
    requires |s| < 32
    ensures FromHex(s) == Invalid(BadlyFormed)
  {
    FromHexCases(s);
  }

  /**
    `uuid.UUID(s)` as the callers that only catch `ValueError` see it: the
    UUID, or `None`. On the canonical form each nibble is the value of its
    digit.
  */
  function Parse(s: string): (r: Option<Uuid>)
    ensures r.Some? <==> FromHex(s).Parsed?
    ensures IsCanonical(s) ==> r == Some(UuidDigits(CanonicalNibbles(s)))
  {
    CanonicalFromHex(s);
    if FromHex(s).Parsed? then Some(FromHex(s).u) else None
  }

  /** The 32 digit characters of a canonical text, in order. */
  function CanonicalText(s: string): (t: string)
    requires IsCanonical(s)
    ensures |t| == 32 && forall i :: 0 <= i < 32 ==> t[i] == s[Position(i)] && Hex.IsDigit(t[i])
  {
    seq(32, i requires 0 <= i < 32 => s[Position(i)])
  }

  /** The values of the 32 digits of a canonical text, in order. */
  function CanonicalNibbles(s: string): (ns: seq<Hex.Nibble>)
    requires IsCanonical(s)
    ensures |ns| == 32 && forall i :: 0 <= i < 32 ==> ns[i] == Hex.Value(s[Position(i)])
  {
    seq(32, i requires 0 <= i < 32 => Hex.Value(s[Position(i)]))
  }

  /** The 36 characters of the 8-4-4-4-12 grouping of 32 characters. */
  function Hyphenate(t: string): (s: string)
    requires |t| == 32
    ensures |s| == 36
    ensures forall j :: 0 <= j < 36 ==> (IsHyphenAt(j) ==> s[j] == '-')
    ensures forall i :: 0 <= i < 32 ==> s[Position(i)] == t[i]
  {
    seq(36, j requires 0 <= j < 36 => if IsHyphenAt(j) then '-' else t[j - HyphensBefore(j)])
  }

  /** Characters the cleaning never touches inside a text: no `u` (so no `urn:` or `uuid:`), no hyphen, no brace. */
  predicate Untouched(t: string) {
    forall i :: 0 <= i < |t| ==> t[i] != 'u' && t[i] != '-' && t[i] != '{' && t[i] != '}'
  }

  /** Removing the hyphens of the grouped form gives back the 32 characters. */
  lemma HyphensRemoved(t: string)
    requires |t| == 32 && Untouched(t)
    ensures PyText.Remove(Hyphenate(t), "-") == t
  {
    var s := Hyphenate(t);
    var a, b, c, d, e := t[..8], t[8..12], t[12..16], t[16..20], t[20..];
    assert s == a + "-" + b + "-" + c + "-" + d + "-" + e;
    RemoveGroups(a, b, c, d, e);
    assert a + b + c + d + e == t;
  }

  lemma RemoveGroups(a: string, b: string, c: string, d: string, e: string)
    requires Untouched(a) && Untouched(b) && Untouched(c) && Untouched(d) && Untouched(e)
    ensures PyText.Remove(a + "-" + b + "-" + c + "-" + d + "-" + e, "-") == a + b + c + d + e
  {
    PyText.RemoveAbsent(a, "-");
    var x := a + "-" + b;
    RemoveGroup(a, b);
    var y := x + "-" + c;
    RemoveGroup(x, c);
    var z := y + "-" + d;
    RemoveGroup(y, d);
    RemoveGroup(z, e);
  }

  /** One more hyphen and group: the hyphen goes, the group stays. */
  lemma RemoveGroup(x: string, g: string)
    requires Untouched(g)
    ensures PyText.Remove(x + "-" + g, "-") == PyText.Remove(x, "-") + g
  {
    PyText.RemoveCharAppend(x + "-", g, '-');
    PyText.RemoveCharAppend(x, "-", '-');
    assert PyText.Remove("-", "-") == "";
    PyText.RemoveAbsent(g, "-");
  }

  /** The grouped form of 32 untouched characters cleans to those characters. */
  lemma CleanedHyphenated(t: string)
    requires |t| == 32 && Untouched(t)
    ensures Cleaned(Hyphenate(t)) == t
  {
    CleanedSteps(Hyphenate(t));
    var s := Hyphenate(t);
    assert s[0] == t[0] && s[35] == t[31];
    Unaffected(s);
    HyphensRemoved(t);
  }

  /** A text without `u` or braces at its ends passes the first three cleaning steps unchanged. */
  lemma Unaffected(s: string)
    requires |s| > 0 && forall i :: 0 <= i < |s| ==> s[i] != 'u'
    requires s[0] != '{' && s[0] != '}' && s[|s| - 1] != '{' && s[|s| - 1] != '}'
    ensures PyText.Strip(PyText.Remove(PyText.Remove(s, "urn:"), "uuid:"), {'{', '}'}) == s
  {
    PyText.StripNothing(s, {'{', '}'});
    PyText.RemoveAbsent(s, "urn:");
    PyText.RemoveAbsent(s, "uuid:");
  }

  /** The braced form `{…}` of the grouped text cleans to the same characters. */
  lemma CleanedBraced(t: string)
    requires |t| == 32 && Untouched(t)
    ensures Cleaned("{" + Hyphenate(t) + "}") == t
  {
    var s := Hyphenate(t);
    assert s[0] == t[0] && s[35] == t[31];
    PyText.StripEnclosed('{', s, '}', {'{', '}'});
    var b := "{" + s + "}";
    CleanedSteps(b);
    assert forall i :: 0 <= i < |b| ==> b[i] != 'u';
    PyText.RemoveAbsent(b, "urn:");
    PyText.RemoveAbsent(b, "uuid:");
    HyphensRemoved(t);
  }

  /** The `urn:uuid:` form of the grouped text cleans to the same characters. */
  lemma CleanedUrn(t: string)
    requires |t| == 32 && Untouched(t)
    ensures Cleaned("urn:uuid:" + Hyphenate(t)) == t
  {
    var s := Hyphenate(t);
    assert s[0] == t[0] && s[35] == t[31];
    PyText.StripNothing(s, {'{', '}'});
    assert forall i :: 0 <= i < |s| ==> s[i] != 'u';
    UrnRemoved(s, "urn:", "uuid:", "urn:uuid:");
    var w := "urn:uuid:" + s;
    CleanedSteps(w);
    var a := PyText.Remove(w, "urn:");
    var b := PyText.Remove(a, "uuid:");
    assert b == s;
    HyphensRemoved(t);
  }

  /** Removing `urn:` from `urn:uuid:` and a text without `u`, then `uuid:`, leaves the text. */
  lemma UrnRemoved(s: string, urn: string, uuid: string, prefix: string)
    requires urn == "urn:" && uuid == "uuid:" && prefix == "urn:uuid:"
    requires forall i :: 0 <= i < |s| ==> s[i] != 'u'
    ensures PyText.Remove(prefix + s, urn) == uuid + s
    ensures PyText.Remove(uuid + s, uuid) == s
  {
    assert PyText.Remove(uuid + s, urn) == uuid + s by { UuidKept(s, urn, uuid); }
    var w := prefix + s;
    assert w[4..] == uuid + s;
    assert PyText.Remove(w, urn) == PyText.Remove(w[4..], urn) by {
      assert w[..4] == urn;
      PyText.RemoveMatch(w, urn);
    }
    assert PyText.Remove(uuid + s, uuid) == s by { UuidRemoved(s, uuid); }
  }

  /** Removing `uuid:` from `uuid:` and a text without `u` leaves the text. */
  lemma UuidRemoved(s: string, uuid: string)
    requires uuid == "uuid:"
    requires forall i :: 0 <= i < |s| ==> s[i] != 'u'
    ensures PyText.Remove(uuid + s, uuid) == s
  {
    var x := uuid + s;
    assert x[..5] == uuid && x[5..] == s;
    PyText.RemoveMatch(x, uuid);
    PyText.RemoveAbsent(s, uuid);
  }

  /** No `urn:` occurs in `uuid:` followed by a text without `u`. */
  lemma UuidKept(s: string, urn: string, uuid: string)
    requires urn == "urn:" && uuid == "uuid:"
    requires forall i :: 0 <= i < |s| ==> s[i] != 'u'
    ensures PyText.Remove(uuid + s, urn) == uuid + s
  {
    var x := uuid + s;
    var y := x[1..];
    var z := y[1..];
    assert x[1] == 'u' && x[..4] != urn;
    PyText.RemoveMiss(x, urn);
    assert y[1] == 'i' && y[..4] != urn;
    PyText.RemoveMiss(y, urn);
    assert forall i :: 0 <= i < |z| ==> z[i] != 'u';
    PyText.RemoveAbsent(z, urn);
    assert x == [x[0]] + ([y[0]] + z);
  }

  /** Whatever cleans to 32 hexadecimal digits is the UUID of those digits. */
  lemma ParsedFromCleaned(s: string, t: string)
    requires Cleaned(s) == t && |t| == 32 && PyText.AllHex(t)
    ensures FromHex(s) == Parsed(UuidDigits(PyText.DigitValues(t)))
  {
    FromHexCases(s);
    PyText.PlainHexInt(t);
    Hex.ValueNibbles(PyText.DigitValues(t));
  }

  /** The canonical form, in either case, is read digit by digit. */
  lemma CanonicalFromHex(s: string)
    ensures IsCanonical(s) ==> FromHex(s) == Parsed(UuidDigits(CanonicalNibbles(s)))
  {
    if IsCanonical(s) {
      CanonicalCleaned(s);
      CanonicalValues(s);
      ParsedFromCleaned(s, CanonicalText(s));
    }
  }

  /** A canonical text cleans to its digits. */
  lemma CanonicalCleaned(s: string)
    requires IsCanonical(s)
    ensures Cleaned(s) == CanonicalText(s) && PyText.AllHex(CanonicalText(s))
  {
    CanonicalHyphenated(s);
    CleanedHyphenated(CanonicalText(s));
  }

  lemma CanonicalValues(s: string)
    requires IsCanonical(s)
    ensures PyText.AllHex(CanonicalText(s)) && PyText.DigitValues(CanonicalText(s)) == CanonicalNibbles(s)
  {
    assert PyText.DigitValues(CanonicalText(s)) == CanonicalNibbles(s);
  }

  /** A canonical text is the grouped form of its digits. */
  lemma CanonicalHyphenated(s: string)
    requires IsCanonical(s)
    ensures |CanonicalText(s)| == 32 && Untouched(CanonicalText(s)) && PyText.AllHex(CanonicalText(s))
    ensures s == Hyphenate(CanonicalText(s))
  {
    var t := CanonicalText(s);
    forall j | 0 <= j < 36 && !IsHyphenAt(j) ensures s[j] == t[j - HyphensBefore(j)] {
      PositionOf(j);
    }
    assert s == Hyphenate(t);
  }

  /** Every non-hyphen position is the position of its digit. */
  lemma PositionOf(j: int)
    requires 0 <= j < 36 && !IsHyphenAt(j)
    ensures 0 <= j - HyphensBefore(j) < 32 && Position(j - HyphensBefore(j)) == j
  {
  }

  /** The 32 lower-case digits of a UUID without hyphens. */
  function HexText(u: Uuid): (t: string)
    ensures |t| == 32 && forall i :: 0 <= i < 32 ==> t[i] == Hex.Digit(u.nibbles[i])
  {
    seq(32, i requires 0 <= i < 32 => Hex.Digit(u.nibbles[i]))
  }

  /** The digits of a UUID are untouched by the cleaning, read back as its nibbles, and group into `str(u)`. */
  lemma HexTextDigits(u: Uuid)
    ensures Untouched(HexText(u)) && PyText.AllHex(HexText(u))
    ensures PyText.DigitValues(HexText(u)) == u.nibbles
    ensures ToStr(u) == Hyphenate(HexText(u))
  {
    var t := HexText(u);
    assert PyText.DigitValues(t) == u.nibbles;
    forall j | 0 <= j < 36 && !IsHyphenAt(j) ensures ToStr(u)[j] == Hyphenate(t)[j] {
      PositionOf(j);
    }
  }

  /** A text with no `u`, hyphen or brace is already clean. */
  lemma CleanedPlain(t: string)
    requires |t| > 0 && Untouched(t)
    ensures Cleaned(t) == t
  {
    CleanedSteps(t);
    Unaffected(t);
    PyText.RemoveAbsent(t, "-");
  }

  /**
    `uuid.UUID` reads back a UUID from each of the forms it accepts for it:
    `str(u)`, the same between braces, after `urn:uuid:`, and the 32 digits
    alone.
  */
  lemma ParseForms(u: Uuid)
    ensures FromHex(ToStr(u)) == Parsed(u)
    ensures FromHex("{" + ToStr(u) + "}") == Parsed(u)
    ensures FromHex("urn:uuid:" + ToStr(u)) == Parsed(u)
    ensures FromHex(HexText(u)) == Parsed(u)
  {
    var t := HexText(u);
    HexTextDigits(u);
    CleanedHyphenated(t);
    ParsedFromCleaned(ToStr(u), t);
    CleanedBraced(t);
    ParsedFromCleaned("{" + ToStr(u) + "}", t);
    CleanedUrn(t);
    ParsedFromCleaned("urn:uuid:" + ToStr(u), t);
    CleanedPlain(t);
    ParsedFromCleaned(t, t);
  }

  /**
    Grouped text of the right length whose first character cannot start a
    number is refused with the text `int` reports, which quotes the cleaned
    characters.
  */
  lemma NonHexMessage(t: string)
    requires |t| == 32 && Untouched(t) && forall i :: 0 <= i < 32 ==> PyText.IsReprPlain(t[i])
    requires !PyText.IsIntSpace(t[0]) && t[0] != '+' && t[0] != '-' && !Hex.IsDigit(t[0])
    ensures FromHex(Hyphenate(t)) == Invalid(LiteralPrefix + ("'" + t + "'"))
  {
    CleanedHyphenated(t);
    FromHexCases(Hyphenate(t));
    PyText.BadFirstCharacter(t);
    PyText.PlainTruncatedRepr(t);
    assert FromHex(Hyphenate(t)) == Invalid(InvalidLiteral(t));
  }

  /** Reading back the text `str` writes gives the same UUID. */
  lemma ParseToStr(u: Uuid)
    ensures Parse(ToStr(u)) == Some(u)
  {
    ToStrNibbles(u);
  }

  /** `str` writes a canonical text whose digits read back as the nibbles. */
  lemma ToStrNibbles(u: Uuid)
    ensures IsCanonical(ToStr(u)) && CanonicalNibbles(ToStr(u)) == u.nibbles
  {
    var s := ToStr(u);
    assert IsCanonical(s) by {
      forall j | 0 <= j < 36 && !IsHyphenAt(j) ensures Hex.IsDigit(s[j]) {
        assert s[j] == Hex.Digit(u.nibbles[j - HyphensBefore(j)]);
      }
    }
    assert CanonicalNibbles(s) == u.nibbles;
  }

  /** Distinct UUIDs have distinct textual forms. */
  lemma ToStrInjective(u: Uuid, v: Uuid)
    ensures ToStr(u) == ToStr(v) ==> u == v
  {
    ParseToStr(u);
    ParseToStr(v);
  }

  /** A canonical lower-case text is exactly the `str` of the UUID it parses to. */
  lemma ToStrParse(s: string)
    requires IsCanonical(s) && forall j :: 0 <= j < |s| ==> !('A' <= s[j] <= 'F')
    ensures ToStr(Parse(s).value) == s
  {
    StrOfNibbles(s);
  }

  /** Writing the digits of a canonical lower-case text gives that text. */
  lemma StrOfNibbles(s: string)
    requires IsCanonical(s) && forall j :: 0 <= j < |s| ==> !('A' <= s[j] <= 'F')
    ensures ToStr(UuidDigits(CanonicalNibbles(s))) == s
  {
    var t := ToStr(UuidDigits(CanonicalNibbles(s)));
    forall j | 0 <= j < 36 ensures t[j] == s[j] {
      if !IsHyphenAt(j) {
        var i := j - HyphensBefore(j);
        assert Position(i) == j;
        Hex.DigitOfValue(s[j]);
      }
    }
  }
}
