/** Parsing the profile typed by the user (meta.py:80-82):
    `list(map(int, text.strip("[]").split(",")))`, where a `ValueError` from `int` is reported
    instead of a vector. `int` is modelled on ASCII text: surrounding whitespace, an optional
    sign and between one and 4300 decimal digits. */
module ProfileParse {
  import opened Text

  /** The ASCII characters Python's `int()` skips around a number (the C-locale spaces):
      space, tab, line feed, vertical tab, form feed and carriage return. */
  const Whitespace: set<char> := {' ', '\t', '\n', '\U{B}', '\U{C}', '\r'}

  /** Python's default limit on the number of digits of a decimal integer that `int()`
      converts and `str()` renders (`sys.get_int_max_str_digits()`); longer ones raise
      `ValueError`. Leading zeros count as digits, a sign does not. */
  const MaxStrDigits: nat := 4300

  /** The characters `strip("[]")` removes from both ends of the profile text. */
  const Brackets: set<char> := {'[', ']'}

  predicate IsDigit(ch: char) {
    '0' <= ch <= '9'
  }

  predicate AllDigits(s: string) {
    forall i :: 0 <= i < |s| ==> IsDigit(s[i])
  }

  /** The value of a string of decimal digits, most significant first. */
  function DigitsValue(ds: string): (n: nat)
    requires AllDigits(ds)
  {
    if ds == [] then 0
    else 10 * DigitsValue(ds[..|ds| - 1]) + (ds[|ds| - 1] as int - '0' as int)
  }

  /** Python's `int(piece)` on the ASCII grammar: `None` where Python raises `ValueError`. */
  function ParseInt(piece: string): Option<int> {
    ParseSigned(Strip(piece, Whitespace))
  }

  /** An optional sign followed by one or more digits, with nothing around them. */
  function ParseSigned(t: string): Option<int> {
    if t == [] then None
    else if t[0] == '+' || t[0] == '-' then
      var ds := t[1..];
      if ds != [] && |ds| <= MaxStrDigits && AllDigits(ds) then
        Some(if t[0] == '-' then -(DigitsValue(ds) as int) else DigitsValue(ds))
      else None
    else if |t| <= MaxStrDigits && AllDigits(t) then Some(DigitsValue(t))
    else None
  }

  datatype Option<T> = None | Some(value: T)

  /** The outcome of parsing the profile text: a vector, or the `ValueError` that meta.py:81-82
      turns into a message. */
  datatype Parsed = Vector(values: seq<int>) | Invalid

  /** The shape of an integer literal: whitespace, an optional sign, at least one digit,
      whitespace. */
  predicate IsLiteralShape(ws1: string, sign: string, ds: string, ws2: string) {
    AllIn(ws1, Whitespace) && AllIn(ws2, Whitespace)
    && (sign == "" || sign == "+" || sign == "-")
    && ds != [] && AllDigits(ds)
  }

  /** A well-formed integer literal of at most `MaxStrDigits` digits; `value` is the number it
      denotes. */
  predicate IsIntLiteral(ws1: string, sign: string, ds: string, ws2: string, value: int) {
    IsLiteralShape(ws1, sign, ds, ws2) && |ds| <= MaxStrDigits
    && value == (if sign == "-" then -(DigitsValue(ds) as int) else DigitsValue(ds))
  }

  /** Every well-formed literal is accepted with the number it denotes. */
  lemma ParseIntComplete(ws1: string, sign: string, ds: string, ws2: string, value: int)
    requires IsIntLiteral(ws1, sign, ds, ws2, value)
    ensures ParseInt(ws1 + (sign + ds) + ws2) == Some(value)
  {
    var b := sign + ds;
    assert b[|b| - 1] == ds[|ds| - 1];
    assert !IsDigit(' ') && !IsDigit('\t');
    assert b[0] !in Whitespace by {
      if sign == "" { assert b[0] == ds[0]; } else { assert b[0] == sign[0]; }
    }
    assert ParseSigned(b) == Some(value) by {
      if sign != "" {
        assert b[1..] == ds;
      } else {
        assert b == ds;
      }
    }
    StripPadded(ws1, b, ws2, Whitespace);
  }

  /** A literal with more than `MaxStrDigits` digits is rejected, however it is signed or
      padded. */
  lemma ParseIntRejectsLong(ws1: string, sign: string, ds: string, ws2: string)
    requires IsLiteralShape(ws1, sign, ds, ws2) && |ds| > MaxStrDigits
    ensures ParseInt(ws1 + (sign + ds) + ws2) == None
  {
    var b := sign + ds;
    assert b[|b| - 1] == ds[|ds| - 1];
    assert !IsDigit(' ') && !IsDigit('\t');
    assert b[0] !in Whitespace by {
      if sign == "" { assert b[0] == ds[0]; } else { assert b[0] == sign[0]; }
    }
    assert ParseSigned(b) == None by {
      if sign != "" {
        assert b[1..] == ds;
      } else {
        assert b == ds;
      }
    }
    StripPadded(ws1, b, ws2, Whitespace);
  }

  /** Only well-formed literals are accepted: an accepted piece splits into whitespace, an
      optional sign, digits and whitespace that denote the parsed number. */
  lemma ParseIntSound(piece: string)
    requires ParseInt(piece).Some?
    ensures exists ws1, sign, ds, ws2 :: piece == ws1 + (sign + ds) + ws2
                                         && IsIntLiteral(ws1, sign, ds, ws2, ParseInt(piece).value)
  {
    var k := StripStart(piece, Whitespace);
    var t := Strip(piece, Whitespace);
    StripShape(piece, Whitespace);
    var v := ParseInt(piece).value;
    assert ParseSigned(t) == Some(v);
    var signLen := if t[0] == '+' || t[0] == '-' then 1 else 0;
    var sign, ds := t[..signLen], t[signLen..];
    if signLen == 1 {
      assert sign == [t[0]];
      assert ds == t[1..];
    } else {
      assert sign == "";
      assert ds == t;
    }
    assert sign + ds == t;
    assert IsIntLiteral(piece[..k], sign, ds, piece[k + |t|..], v);
  }

  /** Any piece containing a character outside whitespace, signs and digits is rejected. */
  lemma ParseIntRejectsStray(piece: string, i: nat)
    requires i < |piece|
    requires piece[i] !in Whitespace && piece[i] != '+' && piece[i] != '-' && !IsDigit(piece[i])
    ensures ParseInt(piece) == None
  {
    var k := StripStart(piece, Whitespace);
    var t := Strip(piece, Whitespace);
    StripShape(piece, Whitespace);
    forall j | 0 <= j < k ensures piece[j] in Whitespace {
      assert piece[..k][j] == piece[j];
    }
    forall j | k + |t| <= j < |piece| ensures piece[j] in Whitespace {
      assert piece[k + |t|..][j - k - |t|] == piece[j];
    }
    assert k <= i < k + |t|;
    assert t[i - k] == piece[i];
    if t[0] == '+' || t[0] == '-' {
      assert i - k == 0 || t[1..][i - k - 1] == piece[i];
    }
  }

  /** The decimal digit for `d < 10`. */
  function Digit(d: nat): char
    requires d < 10
  {
    ('0' as int + d) as char
  }

  /** `str(n)` for a natural number: its decimal digits without leading zeros. */
  function ShowNat(n: nat): (s: string)
    ensures s != [] && AllDigits(s)
  {
    if n < 10 then [Digit(n)] else ShowNat(n / 10) + [Digit(n % 10)]
  }

  /** `str(n)` for an integer. */
  function ShowInt(n: int): string {
    if n < 0 then "-" + ShowNat(-n) else ShowNat(n)
  }

  /** `str(n)` renders `n` without raising: it has at most `MaxStrDigits` digits. */
  predicate WithinDigitLimit(n: int) {
    |ShowNat(if n < 0 then -n else n)| <= MaxStrDigits
  }

  lemma {:induction false} DigitsShowNat(n: nat)
    ensures DigitsValue(ShowNat(n)) == n
  {
    if n >= 10 {
      var s := ShowNat(n);
      assert s[..|s| - 1] == ShowNat(n / 10);
      DigitsShowNat(n / 10);
    }
  }

  /** `int(str(n)) == n` for every `n` that `str` renders. */
  lemma ParseShowInt(n: int)
    requires WithinDigitLimit(n)
    ensures ParseInt(ShowInt(n)) == Some(n)
  {
    var s := ShowInt(n);
    var m := if n < 0 then -n else n;
    DigitsShowNat(m);
    assert ParseSigned(s) == Some(n) by {
      if n < 0 { assert s[1..] == ShowNat(m); }
    }
    assert s[0] !in Whitespace && s[|s| - 1] !in Whitespace by {
      var t := ShowNat(m);
      assert s[|s| - 1] == t[|t| - 1];
      assert IsDigit(t[0]) && IsDigit(t[|t| - 1]);
    }
    StripPadded("", s, "", Whitespace);
    assert "" + s + "" == s;
  }

  /** `map(int, pieces)`, one conversion per piece. */
  function ParseEach(pieces: seq<string>): (r: seq<Option<int>>)
    ensures |r| == |pieces|
    ensures forall i :: 0 <= i < |pieces| ==> r[i] == ParseInt(pieces[i])
  {
    if pieces == [] then [] else [ParseInt(pieces[0])] + ParseEach(pieces[1..])
  }

  /** `list(...)` over the conversions: the first piece that is not an integer makes the
      whole list fail; otherwise the list holds every converted value in order. */
  function Collect(conversions: seq<Option<int>>): (r: Parsed)
    ensures r.Vector? <==> forall i :: 0 <= i < |conversions| ==> conversions[i].Some?
    ensures r.Vector? ==> |r.values| == |conversions|
    ensures r.Vector? ==> forall i :: 0 <= i < |conversions| ==> conversions[i] == Some(r.values[i])
  {
    if conversions == [] then Vector([])
    else
      match conversions[0]
      case None => Invalid
      case Some(n) =>
        match Collect(conversions[1..])
        case Invalid => Invalid
        case Vector(rest) => Vector([n] + rest)
  }

  /** The pieces meta.py:80 hands to `int`. */
  function Pieces(text: string): seq<string> {
    Split(Strip(text, Brackets), ',')
  }

  /** meta.py:80-82: strip brackets from both ends, split on commas, convert every piece. */
  function ParseProfile(text: string): (r: Parsed)
    ensures r.Vector? ==> |r.values| == Count(Strip(text, Brackets), ',') + 1
    ensures r.Vector? <==> forall i :: 0 <= i < |Pieces(text)| ==> ParseInt(Pieces(text)[i]).Some?
    ensures r.Vector? ==> forall i :: 0 <= i < |r.values| ==> ParseInt(Pieces(text)[i]) == Some(r.values[i])
  {
    Collect(ParseEach(Pieces(text)))
  }

  /** Text with nothing but brackets, the empty text included, is not a profile: it strips to
      the empty string, whose one piece is empty, and `int("")` fails. */
  lemma OnlyBracketsInvalid(text: string)
    requires AllIn(text, Brackets)
    ensures ParseProfile(text) == Invalid
  {
    StripPadded(text, "", "", Brackets);
    assert text + "" + "" == text;
    StripPadded("", "", "", Whitespace);
  }

  /** The profile as the input field asks for it: `[1,3,2,...]`. */
  function FormatProfile(v: seq<int>): string {
    "[" + Join(ShowAll(v), ",") + "]"
  }

  function ShowAll(v: seq<int>): (r: seq<string>)
    ensures |r| == |v|
    ensures forall i :: 0 <= i < |v| ==> r[i] == ShowInt(v[i])
  {
    if v == [] then [] else [ShowInt(v[0])] + ShowAll(v[1..])
  }

  /** A non-empty vector written as `[a,b,...]` parses back to itself when no component has
      more than `MaxStrDigits` digits. (The empty vector written as `[]` does not: it strips
      to the empty string, whose one empty piece is not an integer.) */
  lemma ParseFormatProfile(v: seq<int>)
    requires |v| > 0
    requires forall i :: 0 <= i < |v| ==> WithinDigitLimit(v[i])
    ensures ParseProfile(FormatProfile(v)) == Vector(v)
  {
    var shown := ShowAll(v);
    var body := Join(shown, ",");
    forall i | 0 <= i < |shown|
      ensures ',' !in shown[i] && shown[i] != []
      ensures shown[i][0] !in Brackets && shown[i][|shown[i]| - 1] !in Brackets
    {
      ShowIntShape(v[i]);
    }
    JoinFirstLast(shown, ",");
    StripPadded("[", body, "]", Brackets);
    assert FormatProfile(v) == "[" + body + "]";
    SplitJoin(shown, ',');
    assert Pieces(FormatProfile(v)) == shown;
    forall i | 0 <= i < |v| ensures ParseInt(shown[i]) == Some(v[i]) {
      ParseShowInt(v[i]);
    }
    var conversions := ParseEach(shown);
    assert forall i :: 0 <= i < |v| ==> conversions[i] == Some(v[i]);
    var r := Collect(conversions);
    assert r.values == v;
  }

  /** A rendered integer is non-empty, has no comma, and starts with `-` or a digit and ends
      with a digit. */
  lemma ShowIntShape(n: int)
    ensures var s := ShowInt(n);
            s != [] && ',' !in s && s[0] !in Brackets && s[|s| - 1] !in Brackets
  {
    var m := if n < 0 then -n else n;
    var t := ShowNat(m);
    var s := ShowInt(n);
    assert IsDigit(t[0]) && IsDigit(t[|t| - 1]);
    if n < 0 {
      assert s == "-" + t;
      assert s[|s| - 1] == t[|t| - 1];
      forall j | 1 <= j < |s| ensures s[j] != ',' {
        assert s[j] == t[j - 1];
      }
    } else {
      assert s == t;
      forall j | 0 <= j < |s| ensures s[j] != ',' {
        assert IsDigit(s[j]);
      }
    }
  }

  /** The joined rendering of non-empty rendered integers starts with a digit or `-` and ends
      with a digit, so it neither starts nor ends with a bracket. */
  lemma {:induction false} JoinFirstLast(shown: seq<string>, sep: string)
    requires |shown| > 0
    requires forall i :: 0 <= i < |shown| ==> shown[i] != [] && shown[i][0] !in Brackets
                                                && shown[i][|shown[i]| - 1] !in Brackets
    ensures var b := Join(shown, sep); b != [] && b[0] !in Brackets && b[|b| - 1] !in Brackets
  {
    if |shown| > 1 {
      JoinFirstLast(shown[1..], sep);
      var b := Join(shown, sep);
      var rest := Join(shown[1..], sep);
      assert b == shown[0] + sep + rest;
      assert b[|b| - 1] == rest[|rest| - 1];
    }
  }
}
