/** The few Python value conversions the device and discovery code relies on:
    int(s), int(s, 16), str(n) and str(None), over a dynamic value that is
    None, an int or a str. */
module PyValue {
  import opened Wrappers

  /** The exceptions that a conversion or a lookup raises. */
  datatype PyError = TypeError | ValueError | KeyError | AttributeError | ZeroDivisionError | IndexError

  predicate IsDigit(c: char) { '0' <= c <= '9' }

  predicate AllDigits(s: string) { forall i :: 0 <= i < |s| ==> IsDigit(s[i]) }

  /** The value of a string of decimal digits, most significant first. */
  function DigitsValue(s: string): nat
    requires AllDigits(s)
  {
    if s == [] then 0 else 10 * DigitsValue(s[..|s| - 1]) + (s[|s| - 1] as int - '0' as int)
  }

  /** The characters str.isspace() accepts, which int() strips from both
      ends of its argument. */
  predicate IsSpace(c: char)
  {
    '\t' <= c <= '\r' || '\U{001C}' <= c <= ' ' || c == '\U{0085}' || c == '\U{00A0}' || c == '\U{1680}'
    || '\U{2000}' <= c <= '\U{200A}' || c == '\U{2028}' || c == '\U{2029}' || c == '\U{202F}' || c == '\U{205F}'
    || c == '\U{3000}'
  }

  function StripStart(s: string): (r: string)
    ensures |r| <= |s|
  {
    if s != [] && IsSpace(s[0]) then StripStart(s[1..]) else s
  }

  function StripEnd(s: string): (r: string)
    ensures |r| <= |s|
  {
    if s != [] && IsSpace(s[|s| - 1]) then StripEnd(s[..|s| - 1]) else s
  }

  /** s.strip(): the text without the white space at either end. */
  function Strip(s: string): string
  {
    StripEnd(StripStart(s))
  }

  /** A digit of base 16 when `hex`, of base 10 otherwise. */
  predicate IsDigitIn(c: char, hex: bool)
  {
    if hex then HexDigit(c).Some? else IsDigit(c)
  }

  /** Digits as int() reads them: at least one, and a single underscore
      allowed between two digits. */
  predicate Grouped(s: string, hex: bool)
  {
    |s| > 0 && IsDigitIn(s[0], hex) && IsDigitIn(s[|s| - 1], hex)
    && (forall i :: 0 <= i < |s| ==> IsDigitIn(s[i], hex) || s[i] == '_')
    && (forall i :: 0 <= i < |s| - 1 ==> s[i] == '_' ==> s[i + 1] != '_')
  }

  /** The value of one digit of base 16 or 10; 0 for anything else. */
  function DigitOf(c: char, hex: bool): nat
  {
    if hex then (if HexDigit(c).Some? then HexDigit(c).value else 0)
    else if IsDigit(c) then c as int - '0' as int
    else 0
  }

  /** The value of grouped digits, most significant first, the underscores
      skipped. */
  function GroupedValue(s: string, hex: bool): nat
  {
    if s == [] then 0
    else if s[|s| - 1] == '_' then GroupedValue(s[..|s| - 1], hex)
    else (if hex then 16 else 10) * GroupedValue(s[..|s| - 1], hex) + DigitOf(s[|s| - 1], hex)
  }

  /** The text after an optional sign, and whether that sign is '-'. */
  function Unsigned(t: string): (string, bool)
  {
    if |t| > 0 && (t[0] == '-' || t[0] == '+') then (t[1..], t[0] == '-') else (t, false)
  }

  /** int(s) for a str: white space around an optional sign and decimal
      digits in groups; plain decimal digits read as their value. */
  function ParseInt(s: string): (r: Option<int>)
    ensures |s| > 0 && AllDigits(s) ==> r == Some(DigitsValue(s))
  {
    PlainDigits(s);
    var (body, negative) := Unsigned(Strip(s));
    if !Grouped(body, false) then None
    else Some(if negative then 0 - GroupedValue(body, false) as int else GroupedValue(body, false))
  }

  /** The decimal digits of n, without leading zeros. */
  function NatToString(n: nat): (s: string)
    ensures |s| >= 1 && AllDigits(s)
  {
    var d := [('0' as int + n % 10) as char];
    if n < 10 then d else NatToString(n / 10) + d
  }

  /** str(n) for an int. */
  function IntToString(n: int): string
  {
    if n < 0 then "-" + NatToString(-n) else NatToString(n)
  }

  lemma {:induction false} DigitsOfNatToString(n: nat)
    ensures DigitsValue(NatToString(n)) == n
  {
    var s := NatToString(n);
    assert s[..|s| - 1] == if n < 10 then [] else NatToString(n / 10);
    if n >= 10 {
      DigitsOfNatToString(n / 10);
    }
  }

  /** int(str(n)) == n. */
  lemma ParseIntToString(n: int)
    ensures ParseInt(IntToString(n)) == Some(n)
  {
    var s := IntToString(n);
    StripPlain(s);
    if n < 0 {
      DigitsOfNatToString(-n);
      assert s[1..] == NatToString(-n);
      GroupedDigits(NatToString(-n));
    } else {
      DigitsOfNatToString(n);
      GroupedDigits(NatToString(n));
    }
  }

  /** The value of one hexadecimal digit, either case. */
  function HexDigit(c: char): Option<nat>
  {
    if '0' <= c <= '9' then Some(c as int - '0' as int)
    else if 'a' <= c <= 'f' then Some(c as int - 'a' as int + 10)
    else if 'A' <= c <= 'F' then Some(c as int - 'A' as int + 10)
    else None
  }

  function HexDigitsValue(s: string): Option<nat>
  {
    if s == [] then Some(0)
    else match (HexDigitsValue(s[..|s| - 1]), HexDigit(s[|s| - 1]))
      case (Some(hi), Some(lo)) => Some(16 * hi + lo)
      case _ => None
  }

  /** The digits after an optional "0x" or "0X" prefix, which may itself be
      followed by one underscore. */
  function HexBody(u: string): string
  {
    if |u| >= 2 && u[0] == '0' && (u[1] == 'x' || u[1] == 'X') then
      if |u| >= 3 && u[2] == '_' then u[3..] else u[2..]
    else u
  }

  /** int(s, 16) for a str whose value is not negative: white space around
      an optional sign, an optional prefix and hexadecimal digits in
      groups. A text int(s, 16) reads as a negative number gives None.
      Text made of hexadecimal digits alone reads as their value. */
  function ParseHex(s: string): (r: Option<nat>)
    ensures |s| > 0 && (forall i :: 0 <= i < |s| ==> HexDigit(s[i]).Some?) ==> r == HexDigitsValue(s)
  {
    PlainHexDigits(s);
    var (u, negative) := Unsigned(Strip(s));
    var body := HexBody(u);
    if !Grouped(body, true) then None
    else if negative && GroupedValue(body, true) != 0 then None
    else Some(GroupedValue(body, true))
  }

  /** A text without white space at its ends is its own strip(). */
  lemma StripPlain(s: string)
    requires s != [] ==> !IsSpace(s[0]) && !IsSpace(s[|s| - 1])
    ensures Strip(s) == s
  {
  }

  /** Plain decimal digits are grouped digits with the value DigitsValue
      gives. */
  lemma {:induction false} GroupedDigits(s: string)
    requires |s| > 0 && AllDigits(s)
    ensures Grouped(s, false) && GroupedValue(s, false) == DigitsValue(s)
  {
    if |s| > 1 {
      GroupedDigits(s[..|s| - 1]);
    }
  }

  /** Plain hexadecimal digits are grouped digits with the value
      HexDigitsValue gives. */
  lemma {:induction false} GroupedHexDigits(s: string)
    requires |s| > 0 && forall i :: 0 <= i < |s| ==> HexDigit(s[i]).Some?
    ensures Grouped(s, true) && HexDigitsValue(s) == Some(GroupedValue(s, true))
  {
    if |s| > 1 {
      GroupedHexDigits(s[..|s| - 1]);
    } else {
      assert s[..0] == [];
    }
  }

  /** Plain decimal digits are their own strip(), carry no sign and are
      grouped digits with the value DigitsValue gives. */
  lemma PlainDigits(s: string)
    ensures |s| > 0 && AllDigits(s) ==>
              Strip(s) == s && Unsigned(s) == (s, false) && Grouped(s, false) && GroupedValue(s, false) == DigitsValue(s)
  {
    if |s| > 0 && AllDigits(s) {
      StripPlain(s);
      GroupedDigits(s);
    }
  }

  /** Plain hexadecimal digits are their own strip(), carry no sign or
      prefix and are grouped digits with the value HexDigitsValue gives. */
  lemma PlainHexDigits(s: string)
    ensures |s| > 0 && (forall i :: 0 <= i < |s| ==> HexDigit(s[i]).Some?) ==>
              Strip(s) == s && Unsigned(s) == (s, false) && HexBody(s) == s
              && Grouped(s, true) && HexDigitsValue(s) == Some(GroupedValue(s, true))
  {
    if |s| > 0 && forall i :: 0 <= i < |s| ==> HexDigit(s[i]).Some? {
      StripPlain(s);
      GroupedHexDigits(s);
    }
  }

  /** int() skips white space around the number and single underscores
      between digits, and keeps leading zeros. */
  lemma ParseIntAccepts()
    ensures ParseInt(" 1_000\n") == Some(1000)
    ensures ParseInt("-07") == Some(-7)
  {
    ParseIntGrouped();
    ParseIntSigned();
  }

  lemma ParseIntGrouped()
    ensures ParseInt(" 1_000\n") == Some(1000)
  {
    assert Strip(" 1_000\n") == "1_000" by {
      assert " 1_000\n"[1..] == "1_000\n";
      assert "1_000\n"[..5] == "1_000";
    }
    assert Unsigned("1_000") == ("1_000", false);
    assert Grouped("1_000", false);
    assert GroupedValue("1_000", false) == 1000 by {
      assert "1_000"[..4] == "1_00" && "1_00"[..3] == "1_0" && "1_0"[..2] == "1_" && "1_"[..1] == "1";
      assert "1"[..0] == [];
    }
  }

  lemma ParseIntSigned()
    ensures ParseInt("-07") == Some(-7)
  {
    StripPlain("-07");
    assert Unsigned("-07") == ("07", true);
    assert GroupedValue("07", false) == 7 by {
      assert "07"[..1] == "0";
    }
  }

  /** int() refuses doubled, leading and trailing underscores, a sign
      apart from its digits, and text without digits. */
  lemma ParseIntRefuses()
    ensures ParseInt("1__0") == None && ParseInt("_1") == None && ParseInt("1_") == None
    ensures ParseInt("- 1") == None && ParseInt("") == None
  {
    StripPlain("1__0");
    assert !Grouped("1__0", false) by {
      assert "1__0"[1] == '_' && "1__0"[2] == '_';
    }
    StripPlain("_1");
    StripPlain("1_");
    StripPlain("- 1");
    assert Unsigned("- 1") == (" 1", true);
  }

  /** int(s, 16) takes an optional 0x prefix, a sign and white space, and
      reads minus zero as zero. */
  lemma ParseHexAccepts()
    ensures ParseHex("0x_1F") == Some(31) && ParseHex(" +ff ") == Some(255)
    ensures ParseHex("0x") == None && ParseHex("-0") == Some(0)
  {
    ParseHexPrefixed();
    ParseHexPadded();
    ParseHexBarePrefix();
    ParseHexMinusZero();
  }

  lemma ParseHexBarePrefix()
    ensures ParseHex("0x") == None
  {
    StripPlain("0x");
    assert HexBody("0x") == [];
  }

  lemma ParseHexMinusZero()
    ensures ParseHex("-0") == Some(0)
  {
    StripPlain("-0");
    assert Unsigned("-0") == ("0", true);
  }

  lemma ParseHexPrefixed()
    ensures ParseHex("0x_1F") == Some(31)
  {
    StripPlain("0x_1F");
    assert Unsigned("0x_1F") == ("0x_1F", false);
    assert HexBody("0x_1F") == "1F";
    assert GroupedValue("1F", true) == 31 by {
      assert "1F"[..1] == "1" && "1"[..0] == [];
    }
  }

  lemma ParseHexPadded()
    ensures ParseHex(" +ff ") == Some(255)
  {
    assert Strip(" +ff ") == "+ff" by {
      assert " +ff "[1..] == "+ff ";
      assert "+ff "[..3] == "+ff";
    }
    assert Unsigned("+ff") == ("ff", false);
    assert HexBody("ff") == "ff";
    assert GroupedValue("ff", true) == 255 by {
      assert "ff"[..1] == "f" && "f"[..0] == [];
    }
  }

  /** A Python value of one of the three kinds the device code stores. */
  datatype Value = NoneValue | Int(i: int) | Str(s: string)

  /** int(a / b) for ints, b != 0: the exact quotient truncated toward
      zero. */
  function TruncDiv(a: int, b: int): (q: int)
    requires b != 0
    ensures a >= 0 && b > 0 ==> q == a / b
  {
    var n := if a < 0 then -a else a;
    var d := if b < 0 then -b else b;
    if (a < 0) != (b < 0) then -(n / d) else n / d
  }

  /** An XML element's text as the device code receives it: None for an
      element with no text. */
  function OfText(t: Option<string>): Value
  {
    if t.None? then NoneValue else Str(t.value)
  }

  /** str(v). */
  function ToStr(v: Value): string
  {
    match v
    case NoneValue => "None"
    case Int(i) => IntToString(i)
    case Str(s) => s
  }

  /** int(v): a TypeError for None, a ValueError for a string that is not a
      decimal integer. */
  function ToInt(v: Value): (r: Result<int, PyError>)
    ensures v.NoneValue? ==> r == Err(TypeError)
    ensures v.Int? ==> r == Ok(v.i)
    ensures v.Str? && |v.s| > 0 && AllDigits(v.s) ==> r == Ok(DigitsValue(v.s))
    ensures r.Err? ==> r.error == TypeError || r.error == ValueError
  {
    match v
    case NoneValue => Err(TypeError)
    case Int(i) => Ok(i)
    case Str(s) => if ParseInt(s).Some? then Ok(ParseInt(s).value) else Err(ValueError)
  }

  /** int(str(v)) == int(v) for an int: storing a number or its decimal string
      makes no difference to a later int(). */
  lemma ToIntOfToStr(i: int)
    ensures ToInt(Str(ToStr(Int(i)))) == ToInt(Int(i)) == Ok(i)
  {
    ParseIntToString(i);
  }
}
