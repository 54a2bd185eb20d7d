/**
 * Text handling of the GUI layer: the munging applied to all text set on
 * widgets, and the parsing of XML attribute values into integers, integer lists
 * and strings before the loader assigns them to a widget.
 */
module GuiText {
  import opened Wrappers

  // -------------------------------------------------------------------
  // Text munging

  /** The number of occurrences of `c` in `s`. */
  function Count(s: string, c: char): nat
  {
    if s == [] then 0 else (if s[0] == c then 1 else 0) + Count(s[1..], c)
  }

  /** _mungeText: every tab is replaced by four spaces. */
  function MungeText(text: string): (r: string)
    ensures '\t' !in r
    ensures |r| == |text| + 3 * Count(text, '\t')
  {
    if text == [] then []
    else (if text[0] == '\t' then "    " else [text[0]]) + MungeText(text[1..])
  }

  /** Munging works character by character, so it distributes over concatenation. */
  lemma {:induction false} MungeTextAppend(a: string, b: string)
    ensures MungeText(a + b) == MungeText(a) + MungeText(b)
  {
    if a != [] {
      assert (a + b)[0] == a[0] && (a + b)[1..] == a[1..] + b;
      MungeTextAppend(a[1..], b);
    } else {
      assert a + b == b;
    }
  }

  /** Text without tabs is left as it is. */
  lemma {:induction false} MungeTextNoTabs(text: string)
    requires '\t' !in text
    ensures MungeText(text) == text
  {
    if text != [] {
      assert '\t' !in text[1..] by {
        forall k | 0 <= k < |text[1..]| ensures text[1..][k] != '\t' {
          assert text[1..][k] == text[k + 1];
        }
      }
      MungeTextNoTabs(text[1..]);
    }
  }

  /** Munging text twice is munging it once. */
  lemma MungeTextIdempotent(text: string)
    ensures MungeText(MungeText(text)) == MungeText(text)
  {
    MungeTextNoTabs(MungeText(text));
  }

  // -------------------------------------------------------------------
  // Splitting and joining

  /** str.split(sep): the pieces between occurrences of the separator, empty ones included. */
  function Split(s: string, sep: char): (parts: seq<string>)
    ensures |parts| >= 1
    ensures forall p :: p in parts ==> sep !in p
    ensures Join(parts, sep) == s
  {
    if s == [] then [""]
    else if s[0] == sep then
      var rest := Split(s[1..], sep);
      assert s == [sep] + s[1..];
      [""] + rest
    else
      var rest := Split(s[1..], sep);
      assert s == [s[0]] + s[1..];
      var parts := [[s[0]] + rest[0]] + rest[1..];
      assert parts[1..] == rest[1..];
      parts
  }

  /** sep.join(parts): the pieces with the separator between consecutive ones. */
  function Join(parts: seq<string>, sep: char): string
    requires |parts| >= 1
  {
    if |parts| == 1 then parts[0] else parts[0] + [sep] + Join(parts[1..], sep)
  }

  /** Joining pieces without the separator and splitting again gives the pieces back. */
  lemma {:induction false} SplitJoin(parts: seq<string>, sep: char)
    requires |parts| >= 1
    requires forall p :: p in parts ==> sep !in p
    ensures Split(Join(parts, sep), sep) == parts
    decreases |parts|, |parts[0]|
  {
    var p := parts[0];
    if p == [] {
      if |parts| > 1 {
        assert Join(parts, sep) == [sep] + Join(parts[1..], sep);
        assert forall q :: q in parts[1..] ==> q in parts;
        SplitJoin(parts[1..], sep);
        assert parts == [""] + parts[1..];
      }
    } else {
      var shorter := [p[1..]] + parts[1..];
      assert p in parts;
      assert forall q :: q in shorter ==> q in parts || q == p[1..];
      assert sep !in p[1..] by {
        forall k | 0 <= k < |p[1..]| ensures p[1..][k] != sep {
          assert p[1..][k] == p[k + 1];
        }
      }
      assert shorter[1..] == parts[1..];
      SplitJoin(shorter, sep);
      assert Join(parts, sep) == [p[0]] + Join(shorter, sep);
      assert ([p[0]] + Join(shorter, sep))[1..] == Join(shorter, sep);
      assert [p[0]] + shorter[0] == p;
      assert parts == [[p[0]] + shorter[0]] + shorter[1..];
    }
  }

  // -------------------------------------------------------------------
  // Integers

  /** The characters C's isspace accepts in the "C" locale. */
  predicate IsSpace(c: char)
  {
    c == ' ' || c == '\t' || c == '\n' || c == '\r' || c == 11 as char || c == 12 as char
  }

  predicate IsDigit(c: char) { '0' <= c <= '9' }

  /** `s` without its leading whitespace. */
  function SkipSpace(s: string): (r: string)
    ensures |r| <= |s| && (r == [] || !IsSpace(r[0]))
  {
    if s != [] && IsSpace(s[0]) then SkipSpace(s[1..]) else s
  }

  /** The length of the run of digits at the start of `s`. */
  function DigitRun(s: string): (n: nat)
    ensures n <= |s| && forall k :: 0 <= k < n ==> IsDigit(s[k])
    ensures n < |s| ==> !IsDigit(s[n])
  {
    if s != [] && IsDigit(s[0]) then 1 + DigitRun(s[1..]) else 0
  }

  /** The value of a decimal digit. */
  function DigitValue(c: char): (d: nat)
    requires IsDigit(c)
    ensures d <= 9
  {
    c as int - '0' as int
  }

  predicate AllDigits(s: string)
  {
    forall k :: 0 <= k < |s| ==> IsDigit(s[k])
  }

  /** The value of a string of decimal digits. */
  function DigitsValue(s: string): nat
    requires AllDigits(s)
  {
    if s == [] then 0 else 10 * DigitsValue(s[..|s| - 1]) + DigitValue(s[|s| - 1])
  }

  /** Only whitespace in `s`. */
  predicate AllSpace(s: string)
  {
    forall k :: 0 <= k < |s| ==> IsSpace(s[k])
  }

  /** The digits after the sign: at least one, then nothing but whitespace. */
  function ParseDigits(u: string): (r: Option<nat>)
    ensures r.Some? <==> DigitRun(u) > 0 && AllSpace(u[DigitRun(u)..])
  {
    var n := DigitRun(u);
    if n == 0 || !AllSpace(u[n..]) then None
    else
      assert AllDigits(u[..n]) by {
        forall k | 0 <= k < n ensures IsDigit(u[..n][k]) {
          assert u[..n][k] == u[k];
        }
      }
      Some(DigitsValue(u[..n]))
  }

  /** The text after an optional leading sign. */
  function DropSign(t: string): (u: string)
  {
    if t != [] && (t[0] == '-' || t[0] == '+') then t[1..] else t
  }

  /**
   * int(s) for a byte string in Python 2: optional whitespace, an optional sign,
   * optional whitespace again (the sign is read before the digit scan, which
   * skips whitespace of its own), at least one decimal digit, then nothing but
   * whitespace. Anything else is a ValueError, here None.
   */
  function ParseInt(s: string): (r: Option<int>)
  {
    var t := SkipSpace(s);
    match ParseDigits(SkipSpace(DropSign(t)))
    case None => None
    case Some(v) =>
      var signed: int := if t != [] && t[0] == '-' then -(v as int) else v;
      Some(signed)
  }

  /** Skipping whitespace leaves a suffix of the text. */
  lemma {:induction false} SkipSpaceSuffix(s: string)
    ensures SkipSpace(s) == s[|s| - |SkipSpace(s)|..]
  {
    if s != [] && IsSpace(s[0]) {
      SkipSpaceSuffix(s[1..]);
    }
  }

  /** Text that int() accepts holds a digit, and a negative value holds a minus sign. */
  lemma ParseIntShape(s: string)
    ensures ParseInt(s).Some? ==> exists k :: 0 <= k < |s| && IsDigit(s[k])
    ensures ParseInt(s).Some? && ParseInt(s).value < 0 ==> exists k :: 0 <= k < |s| && s[k] == '-'
  {
    var t := SkipSpace(s);
    var u := SkipSpace(DropSign(t));
    SkipSpaceSuffix(s);
    SkipSpaceSuffix(DropSign(t));
    if ParseDigits(u).Some? {
      assert u[0] == s[|s| - |u|];
      if t != [] && t[0] == '-' {
        assert s[|s| - |t|] == '-';
      }
    }
  }

  /** The decimal digits of a natural number, most significant first. */
  function NatDigits(n: nat): (s: string)
    ensures |s| >= 1 && AllDigits(s)
    ensures DigitsValue(s) == n
  {
    var d := ['0' + (n % 10) as char];
    if n < 10 then d
    else
      var s := NatDigits(n / 10) + d;
      assert s[..|s| - 1] == NatDigits(n / 10);
      s
  }

  /** str(n): the decimal form of an integer, with a minus sign when negative. */
  function Show(n: int): (s: string)
  {
    if n < 0 then "-" + NatDigits(-n) else NatDigits(n)
  }

  /** int(str(n)) == n. */
  lemma ParseShow(n: int)
    ensures ParseInt(Show(n)) == Some(n)
  {
    var s := Show(n);
    var digits := if n < 0 then NatDigits(-n) else NatDigits(n);
    assert SkipSpace(digits) == digits;
    assert SkipSpace(s) == s;
    assert DigitRun(digits) == |digits|;
    assert digits[..|digits|] == digits;
    if n < 0 {
      assert s[1..] == digits;
    }
  }

  // -------------------------------------------------------------------
  // XML attributes

  /** The errors attribute parsing raises. */
  datatype ParseError =
    | GuiXMLError  // _toIntList could not read a comma separated list of integers
    | ValueError   // int() could not read an integer attribute

  /** An attribute value after parsing. */
  datatype ParsedValue = IntList(values: seq<int>) | IntValue(value: int) | Text(text: string)

  /** Every piece is an integer. */
  predicate AllParse(parts: seq<string>)
  {
    forall k :: 0 <= k < |parts| ==> ParseInt(parts[k]).Some?
  }

  /** `values` are the integers the pieces hold, one for one. */
  predicate ParsedAs(parts: seq<string>, values: seq<int>)
  {
    |values| == |parts| && forall k :: 0 <= k < |parts| ==> ParseInt(parts[k]) == Some(values[k])
  }

  /** Every piece read as an integer, in order, or None at the first that is not one. */
  function ParseAll(parts: seq<string>): (r: Option<seq<int>>)
    ensures r.Some? <==> AllParse(parts)
    ensures r.Some? ==> ParsedAs(parts, r.value)
  {
    if parts == [] then Some([])
    else
      match ParseInt(parts[0])
      case None => None
      case Some(v) =>
        match ParseAll(parts[1..])
        case None => None
        case Some(vs) => Some([v] + vs)
  }

  /** _toIntList: the comma separated integers of a value, or GuiXMLError. */
  function ToIntList(s: string): (r: Result<seq<int>, ParseError>)
    ensures r.Failure? ==> r.error == GuiXMLError
    ensures r.Success? <==> AllParse(Split(s, ','))
    ensures r.Success? ==> ParsedAs(Split(s, ','), r.value)
  {
    match ParseAll(Split(s, ','))
    case None => Failure(GuiXMLError)
    case Some(values) => Success(values)
  }

  /** A list of integers written the way the attribute holds it: decimal, comma separated. */
  function ShowList(values: seq<int>): string
    requires |values| >= 1
  {
    Join(ShowAll(values), ',')
  }

  function ShowAll(values: seq<int>): (r: seq<string>)
    ensures |r| == |values| && forall k :: 0 <= k < |values| ==> r[k] == Show(values[k])
  {
    if values == [] then [] else [Show(values[0])] + ShowAll(values[1..])
  }

  /** Reading back a written list of integers gives the list. */
  lemma ToIntListShowList(values: seq<int>)
    requires |values| >= 1
    ensures ToIntList(ShowList(values)) == Success(values)
  {
    var parts := ShowAll(values);
    forall p | p in parts ensures ',' !in p {
      var k :| 0 <= k < |parts| && parts[k] == p;
      NoCommaInShow(values[k]);
    }
    SplitJoin(parts, ',');
    forall k | 0 <= k < |parts| ensures ParseInt(parts[k]) == Some(values[k]) {
      ParseShow(values[k]);
    }
    var r := ToIntList(ShowList(values));
    assert r.Success?;
    assert r.value == values;
  }

  lemma NoCommaInShow(n: int)
    ensures ',' !in Show(n)
  {
    var digits := if n < 0 then NatDigits(-n) else NatDigits(n);
    assert forall k :: 0 <= k < |digits| ==> digits[k] != ',';
  }

  /** The attributes _parseAttr reads as integer lists: geometry, then colours. */
  const GeometryNames: set<string> := {"position", "size", "min_size", "max_size", "margins"}
  const ColourNames: set<string> := {"foreground_color", "base_color", "background_color"}
  /** The attributes _parseAttr reads as single integers. */
  const IntegerNames: set<string> := {"opaque", "border_size", "padding"}

  /** No attribute name belongs to two of the groups, so the order of the tests does not matter. */
  lemma AttrNamesDisjoint()
    ensures GeometryNames !! ColourNames && GeometryNames !! IntegerNames && ColourNames !! IntegerNames
  {
  }

  /**
   * _parseAttr: geometry and colour attributes become integer lists (failing with
   * GuiXMLError), opaque, border_size and padding become integers (failing with
   * ValueError, which the loader does not translate), everything else stays text.
   */
  function ParseAttr(name: string, value: string): (r: Result<(string, ParsedValue), ParseError>)
    ensures r.Success? ==> r.value.0 == name
    ensures name in GeometryNames || name in ColourNames ==>
              (r.Success? <==> ToIntList(value).Success?) &&
              (r.Success? ==> r.value.1 == IntList(ToIntList(value).value)) &&
              (r.Failure? ==> r.error == GuiXMLError)
    ensures name in IntegerNames ==>
              (r.Success? <==> ParseInt(value).Some?) &&
              (r.Success? ==> r.value.1 == IntValue(ParseInt(value).value)) &&
              (r.Failure? ==> r.error == ValueError)
    ensures name !in GeometryNames && name !in ColourNames && name !in IntegerNames ==>
              r == Success((name, Text(value)))
  {
    AttrNamesDisjoint();
    // geometry and colour attributes are parsed alike
    if name in GeometryNames || name in ColourNames then
      match ToIntList(value)
      case Failure(e) => Failure(e)
      case Success(vs) => Success((name, IntList(vs)))
    else if name in IntegerNames then
      match ParseInt(value)
      case None => Failure(ValueError)
      case Some(v) => Success((name, IntValue(v)))
    else
      Success((name, Text(value)))
  }

  /** An integer list attribute written out in decimal parses back to the list. */
  lemma ParseAttrShowList(name: string, values: seq<int>)
    requires name in GeometryNames || name in ColourNames
    requires |values| >= 1
    ensures ParseAttr(name, ShowList(values)) == Success((name, IntList(values)))
  {
    ToIntListShowList(values);
  }
}
