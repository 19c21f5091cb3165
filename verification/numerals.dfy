/** The part of Python's `int(text)` and `int(text, 16)` that a configuration line
    goes through: surrounding blanks, an optional sign, for base 16 an optional
    `0x`/`0X` prefix, then one or more ASCII digits of the radix. Rendering
    (`ShowInt`) is the partner used to state the round trip. */
module Numerals {
  import opened Results

  datatype Radix = Decimal | Hexadecimal {
    function Base(): nat {
      if Decimal? then 10 else 16
    }
  }

  /** Value of a digit character; hexadecimal letters count in either case. */
  function DigitValue(c: char, radix: Radix): (v: Option<nat>)
    ensures v.Some? ==> v.value < radix.Base()
    ensures v.Some? ==> c != ' ' && c != '\t' && c != '+' && c != '-' && c != 'x' && c != 'X'
  {
    if '0' <= c <= '9' then Some(c as nat - '0' as nat)
    else if radix.Hexadecimal? && 'a' <= c <= 'f' then Some(c as nat - 'a' as nat + 10)
    else if radix.Hexadecimal? && 'A' <= c <= 'F' then Some(c as nat - 'A' as nat + 10)
    else None
  }

  predicate IsDigit(c: char, radix: Radix) {
    DigitValue(c, radix).Some?
  }

  predicate AllDigits(s: string, radix: Radix) {
    forall i :: 0 <= i < |s| ==> IsDigit(s[i], radix)
  }

  /** Positional value of a digit string, most significant digit first; None
      when some character is not a digit of the radix. */
  function ReadDigits(s: string, radix: Radix): Option<nat> {
    if |s| == 0 then Some(0)
    else match (ReadDigits(s[..|s| - 1], radix), DigitValue(s[|s| - 1], radix))
      case (Some(high), Some(d)) => Some(high * radix.Base() + d)
      case _ => None
  }

  /** The character for digit `d`; letters are lower case. */
  function DigitChar(d: nat, radix: Radix): (c: char)
    requires d < radix.Base()
    ensures DigitValue(c, radix) == Some(d)
  {
    if d < 10 then ('0' as nat + d) as char else ('a' as nat + d - 10) as char
  }

  /** Shortest digit string of `n`. */
  function ShowNat(n: nat, radix: Radix): (s: string)
    ensures |s| > 0 && AllDigits(s, radix)
    decreases n
  {
    if n < radix.Base() then [DigitChar(n, radix)]
    else ShowNat(n / radix.Base(), radix) + [DigitChar(n % radix.Base(), radix)]
  }

  /** Digits of `|i|`, preceded by `-` when `i` is negative. */
  function ShowInt(i: int, radix: Radix): (s: string)
    ensures |s| > 0
    ensures s[0] == '-' <==> i < 0
    ensures i >= 0 ==> AllDigits(s, radix)
    ensures i < 0 ==> AllDigits(s[1..], radix)
  {
    if i < 0 then "-" + ShowNat(-i, radix) else ShowNat(i, radix)
  }

  predicate IsBlank(c: char) {
    c == ' ' || c == '\t'
  }

  predicate AllBlank(s: string) {
    forall i :: 0 <= i < |s| ==> IsBlank(s[i])
  }

  predicate HasHexPrefix(s: string) {
    |s| >= 2 && s[0] == '0' && (s[1] == 'x' || s[1] == 'X')
  }

  /** `int(s)` for Decimal and `int(s, 16)` for Hexadecimal; None where Python
      raises ValueError. Blanks around the number are skipped one at a time. */
  function ParseInt(s: string, radix: Radix): (r: Option<int>)
    ensures AllBlank(s) ==> r.None?
  {
    if |s| > 0 && IsBlank(s[0]) then ParseInt(s[1..], radix)
    else if |s| > 0 && IsBlank(s[|s| - 1]) then ParseInt(s[..|s| - 1], radix)
    else ParseTrimmed(s, radix)
  }

  /** The same, once the surrounding blanks are gone. */
  function ParseTrimmed(t: string, radix: Radix): Option<int> {
    var negative := |t| > 0 && t[0] == '-';
    var unsigned := if |t| > 0 && (t[0] == '+' || t[0] == '-') then t[1..] else t;
    var digits := if radix.Hexadecimal? && HasHexPrefix(unsigned) then unsigned[2..] else unsigned;
    var value := ReadDigits(digits, radix);
    if |digits| > 0 && value.Some? then
      var m: int := value.value;
      Some(if negative then -m else m)
    else
      None
  }

  /** Reading back the digits of `n` gives `n`. */
  lemma {:induction false} ReadShowNat(n: nat, radix: Radix)
    ensures ReadDigits(ShowNat(n, radix), radix) == Some(n)
    decreases n
  {
    var b := radix.Base();
    var s := ShowNat(n, radix);
    if n < b {
      assert s[..|s| - 1] == [];
    } else {
      ReadShowNat(n / b, radix);
      assert s[..|s| - 1] == ShowNat(n / b, radix);
    }
  }

  /** `int()` reads back what `ShowInt` writes, in both radixes. */
  lemma ParseShowInt(i: int, radix: Radix)
    ensures ParseInt(ShowInt(i, radix), radix) == Some(i)
  {
    var s := ShowInt(i, radix);
    var m: nat := if i < 0 then -i else i;
    var digits := ShowNat(m, radix);
    assert !IsBlank(s[0]);
    assert !IsBlank(s[|s| - 1]) by {
      if i < 0 {
        assert s[|s| - 1] == digits[|digits| - 1];
      }
    }
    if i < 0 {
      assert s[1..] == digits;
    }
    assert !HasHexPrefix(digits) by {
      if |digits| >= 2 {
        assert IsDigit(digits[1], radix);
      }
    }
    ReadShowNat(m, radix);
  }

  /** Runs of blanks on either side of a number do not change what `int()` reads. */
  lemma ParseIgnoresBlanks(b1: string, s: string, b2: string, radix: Radix)
    requires AllBlank(b1) && AllBlank(b2)
    ensures ParseInt(b1 + s + b2, radix) == ParseInt(s, radix)
  {
    assert b1 + s + b2 == b1 + (s + b2);
    ParseIgnoresLeadingBlanks(b1, s + b2, radix);
    ParseIgnoresTrailingBlanks(s, b2, radix);
  }

  lemma {:induction false} ParseIgnoresLeadingBlanks(b: string, s: string, radix: Radix)
    requires AllBlank(b)
    ensures ParseInt(b + s, radix) == ParseInt(s, radix)
    decreases |b|
  {
    if |b| == 0 {
      assert b + s == s;
    } else {
      var t := b + s;
      assert t[0] == b[0];
      assert t[1..] == b[1..] + s;
      ParseIgnoresLeadingBlanks(b[1..], s, radix);
    }
  }

  lemma {:induction false} ParseIgnoresTrailingBlanks(s: string, b: string, radix: Radix)
    requires AllBlank(b)
    ensures ParseInt(s + b, radix) == ParseInt(s, radix)
    decreases |b|
  {
    if |b| == 0 {
      assert s + b == s;
    } else {
      var front := b[..|b| - 1];
      assert s + b == (s + front) + [b[|b| - 1]];
      ParseIgnoresTrailingBlank(s + front, b[|b| - 1], radix);
      ParseIgnoresTrailingBlanks(s, front, radix);
    }
  }

  lemma {:induction false} ParseIgnoresTrailingBlank(s: string, c: char, radix: Radix)
    requires IsBlank(c)
    ensures ParseInt(s + [c], radix) == ParseInt(s, radix)
    decreases |s|
  {
    var t := s + [c];
    assert t[..|t| - 1] == s;
    if |s| > 0 && IsBlank(s[0]) {
      assert t[1..] == s[1..] + [c];
      ParseIgnoresTrailingBlank(s[1..], c, radix);
    }
  }

  /** The optional sign in front of a number. */
  datatype Sign = Unsigned | Plus | Minus {
    function Text(): string {
      match this
      case Unsigned => ""
      case Plus => "+"
      case Minus => "-"
    }

    /** The number this sign gives a digit value. */
    function Apply(m: nat): int {
      if Minus? then -(m as int) else m
    }
  }

  /** The optional base prefix; only base 16 has one. */
  datatype BasePrefix = NoPrefix | LowerX | UpperX {
    function Text(): string {
      match this
      case NoPrefix => ""
      case LowerX => "0x"
      case UpperX => "0X"
    }
  }

  /** `s` is blanks, a sign, a base prefix, one or more digits and blanks, in that
      order: the grammar of the numbers `int()` accepts here. */
  predicate NumberText(s: string, radix: Radix, b1: string, sign: Sign, prefix: BasePrefix, d: string, b2: string) {
    && AllBlank(b1) && AllBlank(b2)
    && (prefix.NoPrefix? || radix.Hexadecimal?)
    && |d| > 0 && AllDigits(d, radix) && ReadDigits(d, radix).Some?
    && s == b1 + sign.Text() + prefix.Text() + d + b2
  }

  /** Every text of the grammar is accepted, with the value its sign and digits
      denote: `+5`, `05`, ` -0X7f ` and `FF` in base 16 all read as expected. */
  lemma ParseIntComplete(b1: string, sign: Sign, prefix: BasePrefix, d: string, b2: string, radix: Radix)
    requires AllBlank(b1) && AllBlank(b2) && (prefix.NoPrefix? || radix.Hexadecimal?)
    requires |d| > 0 && AllDigits(d, radix)
    ensures ReadDigits(d, radix).Some?
    ensures ParseInt(b1 + sign.Text() + prefix.Text() + d + b2, radix) == Some(sign.Apply(ReadDigits(d, radix).value))
  {
    AllDigitsRead(d, radix);
    var core := sign.Text() + prefix.Text() + d;
    var s := b1 + sign.Text() + prefix.Text() + d + b2;
    assert ParseInt(s, radix) == ParseInt(core, radix) by {
      Regroup(b1, sign.Text(), prefix.Text(), d, b2);
      ParseIgnoresBlanks(b1, core, b2, radix);
    }
    assert ParseInt(core, radix) == ParseTrimmed(core, radix) by {
      CoreNotBlank(sign, prefix, d, radix);
    }
    ParseTrimmedComplete(sign, prefix, d, radix);
  }

  lemma Regroup(b1: string, x: string, y: string, d: string, b2: string)
    ensures b1 + x + y + d + b2 == b1 + (x + y + d) + b2
  {
  }

  lemma CoreNotBlank(sign: Sign, prefix: BasePrefix, d: string, radix: Radix)
    requires |d| > 0 && AllDigits(d, radix)
    ensures ParseInt(sign.Text() + prefix.Text() + d, radix) == ParseTrimmed(sign.Text() + prefix.Text() + d, radix)
  {
    var core := sign.Text() + prefix.Text() + d;
    assert core[|core| - 1] == d[|d| - 1];
    assert IsDigit(d[|d| - 1], radix);
    assert IsDigit(d[0], radix);
    assert core[0] == (if sign.Unsigned? && prefix.NoPrefix? then d[0] else core[0]);
  }

  lemma ParseTrimmedComplete(sign: Sign, prefix: BasePrefix, d: string, radix: Radix)
    requires (prefix.NoPrefix? || radix.Hexadecimal?)
    requires |d| > 0 && AllDigits(d, radix) && ReadDigits(d, radix).Some?
    ensures ParseTrimmed(sign.Text() + prefix.Text() + d, radix) == Some(sign.Apply(ReadDigits(d, radix).value))
  {
    var unsigned := prefix.Text() + d;
    var t := sign.Text() + unsigned;
    assert (|t| > 0 && t[0] == '-' <==> sign.Minus?)
      && (if |t| > 0 && (t[0] == '+' || t[0] == '-') then t[1..] else t) == unsigned
    by {
      assert IsDigit(d[0], radix);
      assert unsigned[0] != '+' && unsigned[0] != '-';
      SignStripped(sign, unsigned);
    }
    assert (if radix.Hexadecimal? && HasHexPrefix(unsigned) then unsigned[2..] else unsigned) == d by {
      PrefixStripped(prefix, d, radix);
    }
    ParseTrimmedParts(t, sign, unsigned, d, radix);
    Associate(sign.Text(), prefix.Text(), d);
  }

  lemma Associate(x: string, y: string, d: string)
    ensures x + y + d == x + (y + d)
  {
  }

  /** `ParseTrimmed` in terms of the sign it finds, and the text after sign and prefix. */
  lemma ParseTrimmedParts(t: string, sign: Sign, unsigned: string, digits: string, radix: Radix)
    requires |t| > 0 && t[0] == '-' <==> sign.Minus?
    requires (if |t| > 0 && (t[0] == '+' || t[0] == '-') then t[1..] else t) == unsigned
    requires (if radix.Hexadecimal? && HasHexPrefix(unsigned) then unsigned[2..] else unsigned) == digits
    ensures ParseTrimmed(t, radix) ==
      if |digits| > 0 && ReadDigits(digits, radix).Some? then Some(sign.Apply(ReadDigits(digits, radix).value)) else None
  {
  }

  /** Dropping the base prefix in front of digits leaves the digits. */
  lemma PrefixStripped(prefix: BasePrefix, d: string, radix: Radix)
    requires (prefix.NoPrefix? || radix.Hexadecimal?)
    requires |d| > 0 && AllDigits(d, radix)
    ensures var unsigned := prefix.Text() + d;
      (if radix.Hexadecimal? && HasHexPrefix(unsigned) then unsigned[2..] else unsigned) == d
  {
    assert IsDigit(d[0], radix);
    if |d| >= 2 {
      assert IsDigit(d[1], radix);
    }
    var unsigned := prefix.Text() + d;
    match prefix
    case NoPrefix =>
      assert unsigned == d;
    case LowerX =>
      assert unsigned[2..] == d;
    case UpperX =>
      assert unsigned[2..] == d;
  }

  /** Dropping the sign in front of a text that does not start with one. */
  lemma SignStripped(sign: Sign, unsigned: string)
    requires |unsigned| > 0 && unsigned[0] != '+' && unsigned[0] != '-'
    ensures var t := sign.Text() + unsigned;
      && (|t| > 0 && t[0] == '-' <==> sign.Minus?)
      && (if |t| > 0 && (t[0] == '+' || t[0] == '-') then t[1..] else t) == unsigned
  {
    var t := sign.Text() + unsigned;
    match sign
    case Unsigned =>
      assert t == unsigned;
    case Plus =>
      assert t[1..] == unsigned;
    case Minus =>
      assert t[1..] == unsigned;
  }

  /** Every text `int()` accepts is in the grammar, and its value is the one its
      sign and digits denote; so `0x`, `--5`, `1-2` and `7x6` are all rejected. */
  lemma {:induction false} ParseIntSound(s: string, radix: Radix)
    requires ParseInt(s, radix).Some?
    ensures exists b1, sign, prefix, d, b2 ::
      NumberText(s, radix, b1, sign, prefix, d, b2) && ParseInt(s, radix) == Some(sign.Apply(ReadDigits(d, radix).value))
    decreases |s|
  {
    if |s| > 0 && IsBlank(s[0]) {
      var rest := s[1..];
      assert s == [s[0]] + rest;
      assert ParseInt(s, radix) == ParseInt(rest, radix);
      ParseIntSound(rest, radix);
      var b1, sign, prefix, d, b2 :| NumberText(rest, radix, b1, sign, prefix, d, b2)
        && ParseInt(rest, radix) == Some(sign.Apply(ReadDigits(d, radix).value));
      ShapeLeadingBlank(s[0], rest, radix, b1, sign, prefix, d, b2);
    } else if |s| > 0 && IsBlank(s[|s| - 1]) {
      var rest := s[..|s| - 1];
      assert s == rest + [s[|s| - 1]];
      assert ParseInt(s, radix) == ParseInt(rest, radix);
      ParseIntSound(rest, radix);
      var b1, sign, prefix, d, b2 :| NumberText(rest, radix, b1, sign, prefix, d, b2)
        && ParseInt(rest, radix) == Some(sign.Apply(ReadDigits(d, radix).value));
      ShapeTrailingBlank(rest, s[|s| - 1], radix, b1, sign, prefix, d, b2);
    } else {
      assert ParseInt(s, radix) == ParseTrimmed(s, radix);
      var sign, prefix, d := ParseTrimmedShape(s, radix);
      assert NumberText(s, radix, "", sign, prefix, d, "");
    }
  }

  lemma ShapeLeadingBlank(c: char, s: string, radix: Radix, b1: string, sign: Sign, prefix: BasePrefix, d: string, b2: string)
    requires IsBlank(c) && NumberText(s, radix, b1, sign, prefix, d, b2)
    ensures NumberText([c] + s, radix, [c] + b1, sign, prefix, d, b2)
  {
    var b1' := [c] + b1;
    assert [c] + s == b1' + sign.Text() + prefix.Text() + d + b2;
    forall i | 0 < i < |b1'| ensures IsBlank(b1'[i]) {
      assert b1'[i] == b1[i - 1];
    }
  }

  lemma ShapeTrailingBlank(s: string, c: char, radix: Radix, b1: string, sign: Sign, prefix: BasePrefix, d: string, b2: string)
    requires IsBlank(c) && NumberText(s, radix, b1, sign, prefix, d, b2)
    ensures NumberText(s + [c], radix, b1, sign, prefix, d, b2 + [c])
  {
    var b2' := b2 + [c];
    assert s + [c] == b1 + sign.Text() + prefix.Text() + d + b2';
    forall i | 0 <= i < |b2'| - 1 ensures IsBlank(b2'[i]) {
      assert b2'[i] == b2[i];
    }
  }

  /** The sign, prefix and digits a trimmed number splits into. */
  lemma ParseTrimmedShape(t: string, radix: Radix) returns (sign: Sign, prefix: BasePrefix, d: string)
    requires ParseTrimmed(t, radix).Some?
    ensures NumberText(t, radix, "", sign, prefix, d, "")
    ensures ParseTrimmed(t, radix) == Some(sign.Apply(ReadDigits(d, radix).value))
  {
    var unsigned;
    sign, unsigned := SplitSign(t);
    prefix, d := SplitPrefix(unsigned, radix);
    ParseTrimmedParts(t, sign, unsigned, d, radix);
    ReadDigitsAllDigits(d, radix);
    Assemble(t, sign.Text(), unsigned, prefix.Text(), d);
  }

  lemma Assemble(t: string, x: string, u: string, y: string, d: string)
    requires t == x + u && u == y + d
    ensures t == "" + x + y + d + ""
  {
  }

  /** The sign `ParseTrimmed` finds at the head of `t`, and what follows it. */
  lemma SplitSign(t: string) returns (sign: Sign, unsigned: string)
    ensures t == sign.Text() + unsigned
    ensures |t| > 0 && t[0] == '-' <==> sign.Minus?
    ensures (if |t| > 0 && (t[0] == '+' || t[0] == '-') then t[1..] else t) == unsigned
  {
    if |t| > 0 && (t[0] == '+' || t[0] == '-') {
      unsigned := t[1..];
      sign := if t[0] == '+' then Plus else Minus;
      assert t == [t[0]] + unsigned;
    } else {
      unsigned := t;
      sign := Unsigned;
    }
  }

  /** The base prefix `ParseTrimmed` finds at the head of `unsigned`, and the digits after it. */
  lemma SplitPrefix(unsigned: string, radix: Radix) returns (prefix: BasePrefix, d: string)
    ensures unsigned == prefix.Text() + d
    ensures prefix.NoPrefix? || radix.Hexadecimal?
    ensures (if radix.Hexadecimal? && HasHexPrefix(unsigned) then unsigned[2..] else unsigned) == d
  {
    if radix.Hexadecimal? && HasHexPrefix(unsigned) {
      d := unsigned[2..];
      prefix := if unsigned[1] == 'x' then LowerX else UpperX;
      assert unsigned == unsigned[..2] + d;
      assert unsigned[..2] == prefix.Text();
    } else {
      d := unsigned;
      prefix := NoPrefix;
    }
  }

  /** Texts with the right characters in the wrong places raise ValueError. */
  lemma MisplacedSignsAndPrefixes()
    ensures ParseInt("0x", Hexadecimal).None?
    ensures ParseInt("--5", Decimal).None?
    ensures ParseInt("1-2", Decimal).None?
    ensures ParseInt("7x6", Hexadecimal).None?
  {
  }

  /** Digit strings are always read. */
  lemma {:induction false} AllDigitsRead(d: string, radix: Radix)
    requires AllDigits(d, radix)
    ensures ReadDigits(d, radix).Some?
    decreases |d|
  {
    if |d| > 0 {
      var front := d[..|d| - 1];
      assert AllDigits(front, radix) by {
        forall i | 0 <= i < |front| ensures IsDigit(front[i], radix) {
          assert front[i] == d[i];
        }
      }
      AllDigitsRead(front, radix);
      assert IsDigit(d[|d| - 1], radix);
    }
  }

  /** ReadDigits succeeds only on digit strings. */
  lemma {:induction false} ReadDigitsAllDigits(d: string, radix: Radix)
    requires ReadDigits(d, radix).Some?
    ensures AllDigits(d, radix)
    decreases |d|
  {
    if |d| > 0 {
      var front := d[..|d| - 1];
      ReadDigitsAllDigits(front, radix);
      forall i | 0 <= i < |d| - 1
        ensures IsDigit(d[i], radix)
      {
        assert d[i] == front[i];
      }
    }
  }

  /** `int(_, 16)` also reads a number written with the `0x` prefix. */
  lemma ParseHexPrefixed(n: nat)
    ensures ParseInt("0x" + ShowNat(n, Hexadecimal), Hexadecimal) == Some(n)
  {
    var digits := ShowNat(n, Hexadecimal);
    var t := "0x" + digits;
    assert t[|t| - 1] == digits[|digits| - 1];
    assert IsDigit(t[|t| - 1], Hexadecimal);
    assert t[2..] == digits;
    ReadShowNat(n, Hexadecimal);
  }

  /** The built-in device address 0x76, written as in the script, reads as 118. */
  lemma DefaultDeviceText()
    ensures ParseInt("0x76", Hexadecimal) == Some(118)
  {
    assert ShowNat(7, Hexadecimal) == "7";
    assert ShowNat(118, Hexadecimal) == ShowNat(7, Hexadecimal) + [DigitChar(6, Hexadecimal)];
    assert "0x" + ShowNat(118, Hexadecimal) == "0x76";
    ParseHexPrefixed(118);
  }
}
