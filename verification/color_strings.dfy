/**
 * The colour strings of src/core/rgba_color.cpp: a string is a hex colour
 * ("#rrggbb" or "#rrggbbaa"), a single-character code, or a CSS4 or Tableau
 * colour name looked up without regard to ASCII case. The two name tables
 * are generated lists of (name, packed value) pairs and are parameters here.
 */
module ColorStrings {
  import opened Wrappers
  import opened RgbaColor

  // ---------------------------------------------------------------------------
  // ascii_to_lower

  /** A character between 'A' and 'Z'. */
  predicate IsUpper(c: char)
  {
    'A' <= c <= 'Z'
  }

  /** One character lowered: 'A'..'Z' move to 'a'..'z', every other character stays. */
  function LowerChar(c: char): (d: char)
    ensures IsUpper(c) ==> 'a' <= d <= 'z' && d as int - c as int == 'a' as int - 'A' as int
    ensures !IsUpper(c) ==> d == c
    ensures !IsUpper(d)
  {
    if IsUpper(c) then (c as int - ('Z' as int - 'z' as int)) as char else c
  }

  /** The lower-cased copy of a string, character by character. */
  function AsciiLower(s: string): (t: string)
    ensures |t| == |s|
    ensures forall i :: 0 <= i < |s| ==> t[i] == LowerChar(s[i])
  {
    seq(|s|, i requires 0 <= i < |s| => LowerChar(s[i]))
  }

  /**
   * ascii_to_lower: copy the string, then overwrite each character of the
   * copy with its lowered form.
   */
  method AsciiToLower(s: string) returns (result: string)
    ensures result == AsciiLower(s)
  {
    result := s;
    for i := 0 to |result|
      invariant |result| == |s|
      invariant forall j :: 0 <= j < i ==> result[j] == LowerChar(s[j])
      invariant forall j :: i <= j < |s| ==> result[j] == s[j]
    {
      result := result[i := LowerChar(result[i])];
    }
  }

  /** Lowering leaves no upper-case letter, so lowering twice is lowering once. */
  lemma AsciiLowerIdempotent(s: string)
    ensures forall i :: 0 <= i < |s| ==> !IsUpper(AsciiLower(s)[i])
    ensures AsciiLower(AsciiLower(s)) == AsciiLower(s)
  {
  }

  /** Lowering a concatenation lowers each part. */
  lemma AsciiLowerAppend(a: string, b: string)
    ensures AsciiLower(a + b) == AsciiLower(a) + AsciiLower(b)
  {
  }

  // ---------------------------------------------------------------------------
  // Hexadecimal digits and std::from_chars in base 16

  predicate IsHexDigit(c: char)
  {
    '0' <= c <= '9' || 'a' <= c <= 'f' || 'A' <= c <= 'F'
  }

  predicate AllHex(s: string)
  {
    forall i :: 0 <= i < |s| ==> IsHexDigit(s[i])
  }

  /** The value of a hexadecimal digit, either case. */
  function DigitValue(c: char): (d: nat)
    requires IsHexDigit(c)
    ensures d < 16
  {
    if '0' <= c <= '9' then c as int - '0' as int
    else if 'a' <= c <= 'f' then c as int - 'a' as int + 10
    else c as int - 'A' as int + 10
  }

  /** A digit is a digit in either case, with the same value. */
  lemma LowerDigit(c: char)
    ensures IsHexDigit(LowerChar(c)) <==> IsHexDigit(c)
    ensures IsHexDigit(c) ==> DigitValue(LowerChar(c)) == DigitValue(c)
  {
  }

  function Pow16(n: nat): (p: nat)
    ensures p >= 1
  {
    if n == 0 then 1 else 16 * Pow16(n - 1)
  }

  /** The number the digits denote, most significant first; below 16 to the number of digits. */
  function HexValue(ds: string): (v: nat)
    requires AllHex(ds)
    ensures v < Pow16(|ds|)
    decreases |ds|
  {
    if |ds| == 0 then 0
    else HexValue(ds[..|ds| - 1]) * 16 + DigitValue(ds[|ds| - 1])
  }

  /** The number of hexadecimal digits at the front of the string. */
  function LeadingHexDigits(s: string): (n: nat)
    ensures n <= |s|
    ensures forall i :: 0 <= i < n ==> IsHexDigit(s[i])
    ensures n < |s| ==> !IsHexDigit(s[n])
  {
    if |s| == 0 || !IsHexDigit(s[0]) then 0 else 1 + LeadingHexDigits(s[1..])
  }

  /** The error codes of std::from_chars. */
  datatype Errc = NoError | InvalidArgumentErrc | ResultOutOfRange

  /** What std::from_chars reports: how many characters it read, the value stored and the error code. */
  datatype FromCharsResult = FromCharsResult(consumed: nat, value: nat, ec: Errc)

  /**
   * std::from_chars in base 16 into a std::uint32_t: it reads the longest
   * run of hexadecimal digits at the front (no sign, no "0x" prefix, no
   * leading space). No digit at all is an invalid argument; a number that
   * does not fit 32 bits is out of range; the value is stored only when
   * neither happens.
   */
  function FromChars(s: string): (r: FromCharsResult)
    ensures r.consumed == LeadingHexDigits(s)
    ensures r.ec == InvalidArgumentErrc <==> LeadingHexDigits(s) == 0
    ensures r.ec == NoError ==> r.value < Word && r.value == HexValue(s[..r.consumed])
    ensures r.ec == ResultOutOfRange ==> HexValue(s[..r.consumed]) >= Word
  {
    var n := LeadingHexDigits(s);
    if n == 0 then FromCharsResult(0, 0, InvalidArgumentErrc)
    else
      var v := HexValue(s[..n]);
      if v >= Word then FromCharsResult(n, 0, ResultOutOfRange) else FromCharsResult(n, v, NoError)
  }

  /** std::isspace in the "C" locale: the space, tab, line feed, vertical tab, form feed and carriage return. */
  predicate IsSpace(c: char)
  {
    c == ' ' || '\t' <= c <= '\r'
  }

  lemma Pow16Eight()
    ensures Pow16(6) == 0x100_0000 && Pow16(8) == Word
  {
  }

  /** The std::range_error of a conversion that overflows 32 bits. */
  const RangeError: Result<Uint32> := Err(OutOfRange)

  /**
   * hex_string_to_uint32: the string must have 7 or 9 characters (any
   * first character, then six or eight hex digits, in either case); six
   * digits are shifted up a byte and made opaque, eight are taken as
   * they are. A wrong length, a character that is not a hex digit, or a
   * space after the first character is an invalid argument; eight digits
   * always fit 32 bits, so the range error cannot occur.
   */
  function HexStringToUint32(s: string): (r: Result<Uint32>)
    ensures r.Err? <==> (|s| != 7 && |s| != 9) || exists i :: 1 <= i < |s| && !IsHexDigit(s[i])
    ensures r.Err? ==> r.error == InvalidArgument
    ensures r.Ok? ==> AllHex(s[1..])
    ensures r.Ok? && |s| == 9 ==> r.value == HexValue(s[1..])
    ensures r.Ok? && |s| == 7 ==> r.value == HexValue(s[1..]) * 0x100 + 0xff && AlphaByte(r.value) == 0xff
  {
    if |s| != 7 && |s| != 9 then Err(InvalidArgument)
    else
      var digits := s[1..];
      var p := FromChars(digits);
      if p.ec == InvalidArgumentErrc || p.consumed != |digits| || IsSpace(s[1]) then
        assert !IsHexDigit(digits[p.consumed]);
        Err(InvalidArgument)
      else
        assert digits[..p.consumed] == digits;
        Pow16Eight();
        if p.ec == ResultOutOfRange then RangeError
        else if |s| == 7 then Ok((p.value * 0x100) % Word + 0xff)
        else Ok(p.value)
  }

  /** One lowercase hexadecimal digit for a value below 16. */
  function HexChar(d: nat): (c: char)
    requires d < 16
    ensures IsHexDigit(c) && !IsUpper(c) && DigitValue(c) == d
  {
    if d < 10 then ('0' as int + d) as char else ('a' as int + d - 10) as char
  }

  /** The n lowercase hexadecimal digits of v, most significant first. */
  function FormatHex(v: nat, n: nat): (s: string)
    ensures |s| == n && AllHex(s)
  {
    if n == 0 then [] else FormatHex(v / 16, n - 1) + [HexChar(v % 16)]
  }

  /** Reading back n digits written for a value below 16 to the n gives the value. */
  lemma {:induction false} HexValueFormatHex(v: nat, n: nat)
    requires v < Pow16(n)
    ensures HexValue(FormatHex(v, n)) == v
  {
    if n > 0 {
      var s := FormatHex(v, n);
      assert s[..n - 1] == FormatHex(v / 16, n - 1);
      HexValueFormatHex(v / 16, n - 1);
    }
  }

  /** Any colour written as "#rrggbbaa" parses back to itself. */
  lemma EightDigitRoundTrip(v: Uint32)
    ensures HexStringToUint32(['#'] + FormatHex(v, 8)) == Ok(v)
  {
    var s := ['#'] + FormatHex(v, 8);
    assert s[1..] == FormatHex(v, 8);
    Pow16Eight();
    HexValueFormatHex(v, 8);
  }

  /** Any 24-bit colour written as "#rrggbb" parses back to itself, made opaque. */
  lemma SixDigitRoundTrip(v: nat)
    requires v < 0x100_0000
    ensures HexStringToUint32(['#'] + FormatHex(v, 6)) == Ok(v * 0x100 + 0xff)
  {
    var s := ['#'] + FormatHex(v, 6);
    assert s[1..] == FormatHex(v, 6);
    Pow16Eight();
    HexValueFormatHex(v, 6);
  }

  /** Lowering the digits keeps their value. */
  lemma {:induction false} HexValueLower(ds: string)
    requires AllHex(ds)
    ensures AllHex(AsciiLower(ds)) && HexValue(AsciiLower(ds)) == HexValue(ds)
  {
    forall i | 0 <= i < |ds| {
      LowerDigit(ds[i]);
    }
    if |ds| > 0 {
      var n := |ds|;
      assert AsciiLower(ds)[..n - 1] == AsciiLower(ds[..n - 1]);
      HexValueLower(ds[..n - 1]);
    }
  }

  /** Hex strings are read without regard to case. */
  lemma HexCaseInsensitive(s: string)
    ensures HexStringToUint32(AsciiLower(s)) == HexStringToUint32(s)
  {
    var t := AsciiLower(s);
    forall i | 0 <= i < |s| {
      LowerDigit(s[i]);
    }
    if HexStringToUint32(s).Ok? {
      assert t[1..] == AsciiLower(s[1..]);
      HexValueLower(s[1..]);
    } else if |s| == 7 || |s| == 9 {
      var i :| 1 <= i < |s| && !IsHexDigit(s[i]);
      assert !IsHexDigit(t[i]);
    }
  }

  // ---------------------------------------------------------------------------
  // Colour names and the dispatch of to_uint32

  /** A generated colour table: names in the order the generated header lists them. */
  type Table = seq<(string, Uint32)>

  /**
   * The first entry whose name, after the prefix, equals the key; the
   * lookups compare against each generated name in turn and return on the
   * first match.
   */
  function Lookup(table: Table, prefix: string, key: string): (r: Option<Uint32>)
    ensures r.Some? <==> exists i :: 0 <= i < |table| && prefix + table[i].0 == key
  {
    if |table| == 0 then None
    else if prefix + table[0].0 == key then Some(table[0].1)
    else
      assert forall i :: 1 <= i < |table| ==> table[i] == table[1..][i - 1];
      Lookup(table[1..], prefix, key)
  }

  /** The lookup yields the value of the first entry whose name matches. */
  lemma {:induction false} LookupFirst(table: Table, prefix: string, key: string, i: nat)
    requires i < |table| && prefix + table[i].0 == key
    requires forall j :: 0 <= j < i ==> prefix + table[j].0 != key
    ensures Lookup(table, prefix, key) == Some(table[i].1)
  {
    if i > 0 {
      assert forall j :: 0 <= j < i - 1 ==> table[1..][j] == table[j + 1];
      LookupFirst(table[1..], prefix, key, i - 1);
    }
  }

  /** css4_string_to_uint32: the lowered string among the CSS4 names. */
  function Css4StringToUint32(css4: Table, s: string): (r: Option<Uint32>)
  {
    Lookup(css4, "", AsciiLower(s))
  }

  /** tableau_string_to_uint32: the lowered string among the Tableau names prefixed "tab:". */
  function TableauStringToUint32(tableau: Table, s: string): (r: Option<Uint32>)
  {
    Lookup(tableau, "tab:", AsciiLower(s))
  }

  /**
   * to_uint32 on a string: the empty string is an invalid argument; a
   * string starting with '#' is a hex string, whatever its length; a single
   * character is a character code; otherwise a CSS4 name, then a Tableau
   * name, and an invalid argument when neither matches.
   */
  function StringToUint32(css4: Table, tableau: Table, s: string): (r: Result<Uint32>)
    ensures r.Err? ==> r.error == InvalidArgument
    ensures |s| == 0 ==> r.Err?
    ensures |s| > 0 && s[0] == '#' ==> r == HexStringToUint32(s)
    ensures |s| == 1 && s[0] != '#' ==> r == CharToUint32(s[0])
    ensures |s| > 1 && s[0] != '#' ==>
              (r.Ok? <==> (exists i :: 0 <= i < |css4| && css4[i].0 == AsciiLower(s))
                          || (exists i :: 0 <= i < |tableau| && "tab:" + tableau[i].0 == AsciiLower(s)))
    ensures |s| > 1 && s[0] != '#' && (exists i :: 0 <= i < |css4| && css4[i].0 == AsciiLower(s)) ==>
              r == Ok(Css4StringToUint32(css4, s).value)
    ensures |s| > 1 && s[0] != '#' && (forall i :: 0 <= i < |css4| ==> css4[i].0 != AsciiLower(s)) ==>
              r == (var t := TableauStringToUint32(tableau, s); if t.Some? then Ok(t.value) else Err(InvalidArgument))
  {
    if |s| == 0 then Err(InvalidArgument)
    else if s[0] == '#' then HexStringToUint32(s)
    else if |s| == 1 then CharToUint32(s[0])
    else
      var c := Css4StringToUint32(css4, s);
      if c.Some? then Ok(c.value)
      else
        var t := TableauStringToUint32(tableau, s);
        if t.Some? then Ok(t.value) else Err(InvalidArgument)
  }

  /**
   * Except for single characters (where 'K' is not a code but 'k' is),
   * colour strings are read without regard to ASCII case.
   */
  lemma StringCaseInsensitive(css4: Table, tableau: Table, s: string)
    requires |s| != 1
    ensures StringToUint32(css4, tableau, AsciiLower(s)) == StringToUint32(css4, tableau, s)
  {
    AsciiLowerIdempotent(s);
    if |s| > 0 && s[0] == '#' {
      HexCaseInsensitive(s);
    }
  }

  /** The string constructor of rgba_color. */
  function FromString(css4: Table, tableau: Table, s: string): (r: Result<RgbaColor>)
    ensures r.Err? <==> StringToUint32(css4, tableau, s).Err?
    ensures r.Err? ==> r.error == InvalidArgument
    ensures r.Ok? ==> r.value.value == StringToUint32(css4, tableau, s).value
  {
    var v := StringToUint32(css4, tableau, s);
    if v.Err? then Err(v.error) else Ok(RgbaColor(v.value))
  }

  /** One more digit at the end multiplies the value by 16 and adds the digit's value. */
  lemma HexValueSnoc(ds: string, c: char)
    requires AllHex(ds) && IsHexDigit(c)
    ensures AllHex(ds + [c]) && HexValue(ds + [c]) == HexValue(ds) * 16 + DigitValue(c)
  {
    assert (ds + [c])[..|ds|] == ds;
  }

  /** "#ff7f00" is opaque orange. */
  lemma SixDigitExample(six: string)
    requires six == "#ff7f00"
    ensures StringToUint32([], [], six) == Ok(0xff7f_00ff)
  {
    var d1 := ['f'];
    var d2 := d1 + ['f'];
    var d3 := d2 + ['7'];
    var d4 := d3 + ['f'];
    var d5 := d4 + ['0'];
    var d6 := d5 + ['0'];
    assert HexValue(d1) == 0xf by { HexValueSnoc([], 'f'); assert [] + ['f'] == d1; }
    HexValueSnoc(d1, 'f');
    HexValueSnoc(d2, '7');
    HexValueSnoc(d3, 'f');
    HexValueSnoc(d4, '0');
    HexValueSnoc(d5, '0');
    assert HexValue(d6) == 0xff7f00;
    assert six[1..] == d6;
  }

  /** The digits FF7F003F denote 0xff7f003f. */
  lemma EightDigitValue(d: string)
    requires d == "FF7F003F"
    ensures AllHex(d) && HexValue(d) == 0xff7f_003f
  {
    var d4 := d[..4];
    OrangeDigits(d4);
    var d5 := d4 + ['0'];
    var d6 := d5 + ['0'];
    var d7 := d6 + ['3'];
    HexValueSnoc(d4, '0');
    HexValueSnoc(d5, '0');
    HexValueSnoc(d6, '3');
    HexValueSnoc(d7, 'F');
    assert d == d7 + ['F'];
  }

  /** The digits FF7F denote 0xff7f. */
  lemma OrangeDigits(d: string)
    requires d == "FF7F"
    ensures AllHex(d) && HexValue(d) == 0xff7f
  {
    var d1 := ['F'];
    var d2 := d1 + ['F'];
    var d3 := d2 + ['7'];
    assert HexValue(d1) == 0xf by { HexValueSnoc([], 'F'); assert [] + ['F'] == d1; }
    HexValueSnoc(d1, 'F');
    HexValueSnoc(d2, '7');
    HexValueSnoc(d3, 'F');
    assert d == d3 + ['F'];
  }

  /** "#FF7F003F", in capitals, is the same orange at alpha 0x3f. */
  lemma EightDigitExample(eight: string)
    requires eight == "#FF7F003F"
    ensures StringToUint32([], [], eight) == Ok(0xff7f_003f)
  {
    EightDigitValue(eight[1..]);
  }

  /** Wrong lengths and stray characters are invalid arguments. */
  lemma BadHexExamples(short: string, long: string, letter: string, spaces: string)
    requires short == "#fffff" && long == "#fffffffff" && letter == "#fffffg" && spaces == "#  ffffff"
    ensures HexStringToUint32(short) == Err(InvalidArgument)
    ensures HexStringToUint32(long) == Err(InvalidArgument)
    ensures HexStringToUint32(letter) == Err(InvalidArgument)
    ensures HexStringToUint32(spaces) == Err(InvalidArgument)
  {
    assert !IsHexDigit(letter[6]);
    assert !IsHexDigit(spaces[1]);
  }

  /** A CSS4 name in mixed case is found: "PowderBlue" among black and powder blue. */
  lemma Css4NameExample(css4: Table, mixed: string)
    requires css4 == [("black", 0x0000_00ff), ("powderblue", 0xb0e0_e6ff)] && mixed == "PowderBlue"
    ensures StringToUint32(css4, [], mixed) == Ok(0xb0e0_e6ff)
  {
    assert AsciiLower(mixed) == "powderblue";
    LookupFirst(css4, "", "powderblue", 1);
  }

  /** A Tableau name is found after its "tab:" prefix, in either case: "tab:Blue". */
  lemma TableauNameExample(tableau: Table, tab: string)
    requires tableau == [("blue", 0x4e79_a7ff)] && tab == "tab:Blue"
    ensures StringToUint32([], tableau, tab) == Ok(0x4e79_a7ff)
  {
    assert AsciiLower(tab) == "tab:blue";
    assert "tab:" + tableau[0].0 == "tab:blue";
  }

  /**
   * A Tableau name is not found without its prefix, and a CSS4 name not
   * with one: with black in the CSS4 table and blue in the Tableau table,
   * "blue" and "tab:black" are invalid arguments.
   */
  lemma WrongTableExample(css4: Table, tableau: Table, noTab: string, wrongTable: string)
    requires css4 == [("black", 0x0000_00ff)] && tableau == [("blue", 0x4e79_a7ff)]
    requires noTab == "blue" && wrongTable == "tab:black"
    ensures StringToUint32(css4, tableau, noTab) == Err(InvalidArgument)
    ensures StringToUint32(css4, tableau, wrongTable) == Err(InvalidArgument)
  {
    assert AsciiLower(noTab) == "blue";
    assert css4[0].0 != "blue" && "tab:" + tableau[0].0 != "blue";
    assert AsciiLower(wrongTable) == "tab:black";
    assert css4[0].0 != "tab:black" && "tab:" + tableau[0].0 != "tab:black";
  }
}
