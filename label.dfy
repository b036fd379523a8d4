/**
 * The camera list rows and their parsing (src/worker.rs:100 and :147).
 *
 * A row of the camera list is the Rust `Debug` rendering of a device id,
 * `[1, 2, 3]`. When the user picks a row, its text is turned back into bytes:
 * leading `[` and trailing `]` are trimmed, the rest is split on ASCII
 * whitespace, trailing commas are trimmed off each piece and each piece is
 * parsed as a `u8`. Any failure is a panic of the `unwrap` that follows; here
 * it is `None`.
 */
module DeviceLabel {
  import opened Wrappers
  import opened Records

  // ---------------------------------------------------------------------
  // Characters

  predicate IsDigit(c: char) {
    '0' <= c <= '9'
  }

  predicate AllDigits(s: string) {
    forall i :: 0 <= i < |s| ==> IsDigit(s[i])
  }

  /** `u8::is_ascii_whitespace`: tab, line feed, form feed, carriage return and space (not vertical tab). */
  predicate IsAsciiWhitespace(c: char) {
    c == '\t' || c == '\n' || c == '\U{C}' || c == '\r' || c == ' '
  }

  predicate NoWhitespace(s: string) {
    forall i :: 0 <= i < |s| ==> !IsAsciiWhitespace(s[i])
  }

  function DigitChar(d: nat): (c: char)
    requires d < 10
    ensures IsDigit(c)
  {
    ('0' as int + d) as char
  }

  function DigitValue(c: char): nat
    requires IsDigit(c)
  {
    c as int - '0' as int
  }

  // ---------------------------------------------------------------------
  // Decimal numbers

  /** The `Display` (and `Debug`) text of a natural number: its decimal digits, no leading zero. */
  function DecimalString(n: nat): (s: string)
    ensures |s| >= 1 && AllDigits(s)
    ensures |s| > 1 ==> s[0] != '0'
  {
    if n < 10 then [DigitChar(n)] else DecimalString(n / 10) + [DigitChar(n % 10)]
  }

  /** The value of a string of decimal digits, most significant first. */
  function DigitsValue(s: string): nat
    requires AllDigits(s)
  {
    if s == [] then 0 else DigitsValue(s[..|s| - 1]) * 10 + DigitValue(s[|s| - 1])
  }

  lemma {:induction false} DecimalRoundTrip(n: nat)
    ensures DigitsValue(DecimalString(n)) == n
  {
    if n >= 10 {
      var s := DecimalString(n);
      assert s[..|s| - 1] == DecimalString(n / 10);
      DecimalRoundTrip(n / 10);
    }
  }

  /**
   * `str::parse::<u8>`: an optional leading `+` (a `+` alone is an error),
   * then one or more decimal digits whose value is at most 255. Leading zeros
   * are accepted; a `-` is not, the type being unsigned.
   */
  function ParseU8(s: string): (r: Option<Byte>)
    ensures r.Some? ==> |s| >= 1 && IsDigit(s[|s| - 1])
  {
    var digits := if |s| > 1 && s[0] == '+' then s[1..] else s;
    if digits == [] || !AllDigits(digits) then None
    else if DigitsValue(digits) > 255 then None
    else Some(DigitsValue(digits))
  }

  /** A byte's decimal text parses back to that byte. */
  lemma ParseU8Decimal(b: Byte)
    ensures ParseU8(DecimalString(b)) == Some(b)
  {
    DecimalRoundTrip(b);
  }

  /** A run of zero digits, possibly empty. */
  predicate AllZeros(z: string) {
    forall i :: 0 <= i < |z| ==> z[i] == '0'
  }

  /** A single leading zero does not change the value of a digit string. */
  lemma {:induction false} LeadingZeroValue(d: string)
    requires AllDigits(d)
    ensures AllDigits("0" + d) && DigitsValue("0" + d) == DigitsValue(d)
  {
    assert forall i :: 1 <= i < |"0" + d| ==> ("0" + d)[i] == d[i - 1];
    if d != [] {
      var n := |d| - 1;
      assert ("0" + d)[..|d|] == "0" + d[..n];
      LeadingZeroValue(d[..n]);
    }
  }

  /** Any run of leading zeros does not change the value of a digit string. */
  lemma {:induction false} LeadingZerosValue(z: string, d: string)
    requires AllZeros(z) && AllDigits(d)
    ensures AllDigits(z + d) && DigitsValue(z + d) == DigitsValue(d)
  {
    if z == [] {
      assert z + d == d;
    } else {
      LeadingZerosValue(z[1..], d);
      LeadingZeroValue(z[1..] + d);
      assert z + d == "0" + (z[1..] + d);
    }
  }

  /** A digit string is worth at least its first digit. */
  lemma {:induction false} FirstDigitBound(d: string)
    requires d != [] && AllDigits(d)
    ensures DigitsValue(d) >= DigitValue(d[0])
  {
    if |d| > 1 {
      var n := |d| - 1;
      FirstDigitBound(d[..n]);
    }
  }

  /** A digit string without a leading zero is the decimal text of its value. */
  lemma {:induction false} CanonicalDigits(d: string)
    requires d != [] && AllDigits(d) && (|d| == 1 || d[0] != '0')
    ensures d == DecimalString(DigitsValue(d))
  {
    var n := |d| - 1;
    var v := DigitsValue(d);
    if n > 0 {
      var p := d[..n];
      CanonicalDigits(p);
      FirstDigitBound(p);
      assert v / 10 == DigitsValue(p) && v % 10 == DigitValue(d[n]);
      assert d == p + [d[n]];
    }
  }

  /** One more leading zero in front of a run of zeros and a decimal text. */
  lemma PrependZero(t: string, z: string, v: nat)
    requires AllZeros(z) && t == z + DecimalString(v)
    ensures AllZeros("0" + z) && "0" + t == ("0" + z) + DecimalString(v)
  {
    assert forall i :: 1 <= i < |"0" + z| ==> ("0" + z)[i] == z[i - 1];
  }

  /** Every non-empty digit string is a run of zeros `z` followed by the decimal text of its value. */
  lemma {:induction false} DigitsAsDecimal(d: string) returns (z: string)
    requires d != [] && AllDigits(d)
    ensures AllZeros(z) && d == z + DecimalString(DigitsValue(d))
  {
    if |d| > 1 && d[0] == '0' {
      var t := d[1..];
      assert d == "0" + t;
      assert AllDigits(t);
      var z' := DigitsAsDecimal(t);
      LeadingZeroValue(t);
      PrependZero(t, z', DigitsValue(t));
      z := "0" + z';
    } else {
      CanonicalDigits(d);
      z := [];
    }
  }

  /** The sign `p` and the leading zeros `z` of a text that `parse::<u8>` accepts. */
  lemma ParseU8Parts(s: string, b: Byte) returns (p: string, z: string)
    requires ParseU8(s) == Some(b)
    ensures p == "" || p == "+"
    ensures AllZeros(z) && s == p + (z + DecimalString(b))
  {
    var plus := |s| > 1 && s[0] == '+';
    var digits := if plus then s[1..] else s;
    p := if plus then "+" else "";
    assert s == p + digits;
    z := DigitsAsDecimal(digits);
  }

  /**
   * The texts `parse::<u8>` accepts, first direction: whatever it accepts is an
   * optional `+`, a run of zeros and the decimal text of the byte it gives.
   */
  lemma ParseU8Accepts(s: string, b: Byte)
    requires ParseU8(s) == Some(b)
    ensures exists p, z :: (p == "" || p == "+") && AllZeros(z) && s == p + z + DecimalString(b)
  {
    var p, z := ParseU8Parts(s, b);
    assert p + (z + DecimalString(b)) == p + z + DecimalString(b);
  }

  /** A digit string worth at most 255 parses to its value, with or without a leading `+`. */
  lemma ParseU8OfDigits(d: string)
    requires d != [] && AllDigits(d) && DigitsValue(d) <= 255
    ensures ParseU8(d) == Some(DigitsValue(d))
    ensures ParseU8("+" + d) == Some(DigitsValue(d))
  {
    assert d[0] != '+';
    assert ("+" + d)[1..] == d;
  }

  /** The texts `parse::<u8>` accepts, other direction: an optional `+`, any zeros and a byte's decimal text give that byte. */
  lemma ParseU8Canonical(p: string, z: string, b: Byte)
    requires p == "" || p == "+"
    requires AllZeros(z)
    ensures ParseU8(p + z + DecimalString(b)) == Some(b)
  {
    var decimal := DecimalString(b);
    var d := z + decimal;
    if p == "" {
      assert p + z == z;
    } else {
      assert p + z + decimal == "+" + d;
    }
    LeadingZerosValue(z, decimal);
    DecimalRoundTrip(b);
    ParseU8OfDigits(d);
  }

  // ---------------------------------------------------------------------
  // Trimming and splitting

  /** `str::trim_start_matches(c)`: every leading `c` removed. */
  function TrimStart(s: string, c: char): (r: string)
    ensures |r| <= |s| && r == s[|s| - |r|..]
    ensures forall i :: 0 <= i < |s| - |r| ==> s[i] == c
    ensures r == [] || r[0] != c
  {
    if s != [] && s[0] == c then TrimStart(s[1..], c) else s
  }

  /** `str::trim_end_matches(c)`: every trailing `c` removed. */
  function TrimEnd(s: string, c: char): (r: string)
    ensures |r| <= |s| && r == s[..|r|]
    ensures forall i :: |r| <= i < |s| ==> s[i] == c
    ensures r == [] || r[|r| - 1] != c
  {
    if s != [] && s[|s| - 1] == c then TrimEnd(s[..|s| - 1], c) else s
  }

  /** The length of the run of non-whitespace characters that starts `s`. */
  function WordLength(s: string): (n: nat)
    ensures n <= |s|
    ensures NoWhitespace(s[..n])
    ensures n < |s| ==> IsAsciiWhitespace(s[n])
  {
    if s == [] || IsAsciiWhitespace(s[0]) then 0 else 1 + WordLength(s[1..])
  }

  /** `str::split_ascii_whitespace`: the maximal non-whitespace runs of `s`, in order; never an empty piece. */
  function SplitAsciiWhitespace(s: string): (words: seq<string>)
    ensures forall w :: w in words ==> w != [] && NoWhitespace(w)
    decreases |s|
  {
    if s == [] then []
    else if IsAsciiWhitespace(s[0]) then SplitAsciiWhitespace(s[1..])
    else
      var n := WordLength(s);
      [s[..n]] + SplitAsciiWhitespace(s[n..])
  }

  /** A word followed by whitespace (or by nothing) is split off as one piece. */
  lemma SplitLeadingWord(w: string, t: string)
    requires w != [] && NoWhitespace(w)
    requires t == [] || IsAsciiWhitespace(t[0])
    ensures SplitAsciiWhitespace(w + t) == [w] + SplitAsciiWhitespace(t)
  {
    var s := w + t;
    var n := WordLength(s);
    assert forall i :: 0 <= i < |w| ==> s[i] == w[i];
    assert t != [] ==> s[|w|] == t[0];
    assert n == |w|;
    assert s[..n] == w && s[n..] == t;
  }

  // ---------------------------------------------------------------------
  // The row text of a device id and its parsing

  /** What `Debug` prints between the brackets of a `Vec<u8>`: the bytes in decimal, separated by ", ". */
  function DebugBody(id: seq<Byte>): (s: string)
    ensures s == [] <==> id == []
    ensures s != [] ==> IsDigit(s[0]) && IsDigit(s[|s| - 1])
  {
    if id == [] then []
    else if |id| == 1 then DecimalString(id[0])
    else DecimalString(id[0]) + ", " + DebugBody(id[1..])
  }

  /** `format!("{:?}", id)`: the label of a camera row (src/worker.rs:147). */
  function FormatLabel(id: seq<Byte>): string {
    "[" + DebugBody(id) + "]"
  }

  /** Parse each piece, trailing commas trimmed, as a `u8`; any failure fails the whole row. */
  function ParseTokens(tokens: seq<string>): Option<seq<Byte>> {
    if tokens == [] then Some([])
    else
      match ParseU8(TrimEnd(tokens[0], ','))
      case None => None
      case Some(b) =>
        match ParseTokens(tokens[1..])
        case None => None
        case Some(rest) => Some([b] + rest)
  }

  /**
   * A row parses exactly when every piece does, and then into one byte per
   * piece, in order: the `collect` of `unwrap`ped parses.
   */
  lemma ParseTokensPiecewise(tokens: seq<string>)
    ensures ParseTokens(tokens).Some? <==> forall i :: 0 <= i < |tokens| ==> ParseU8(TrimEnd(tokens[i], ',')).Some?
    ensures ParseTokens(tokens).Some? ==> |ParseTokens(tokens).value| == |tokens|
    ensures ParseTokens(tokens).Some? ==>
      forall i :: 0 <= i < |tokens| ==> ParseU8(TrimEnd(tokens[i], ',')) == Some(ParseTokens(tokens).value[i])
  {
    ParseTokensSucceeds(tokens);
    if ParseTokens(tokens).Some? {
      ParseTokensBytes(tokens);
    }
  }

  /** When a row parses: every piece parses. */
  lemma {:induction false} ParseTokensSucceeds(tokens: seq<string>)
    ensures ParseTokens(tokens).Some? <==> forall i :: 0 <= i < |tokens| ==> ParseU8(TrimEnd(tokens[i], ',')).Some?
  {
    if tokens != [] {
      var rest := tokens[1..];
      assert forall i :: 1 <= i < |tokens| ==> tokens[i] == rest[i - 1];
      ParseTokensSucceeds(rest);
      assert ParseTokens(tokens).Some? <==> ParseU8(TrimEnd(tokens[0], ',')).Some? && ParseTokens(rest).Some?;
    }
  }

  /** What a row that parses gives: one byte per piece, each the parse of its piece. */
  lemma {:induction false} ParseTokensBytes(tokens: seq<string>)
    requires ParseTokens(tokens).Some?
    ensures |ParseTokens(tokens).value| == |tokens|
    ensures forall i :: 0 <= i < |tokens| ==> ParseU8(TrimEnd(tokens[i], ',')) == Some(ParseTokens(tokens).value[i])
  {
    if tokens != [] {
      var rest := tokens[1..];
      ParseTokensBytes(rest);
      var bytes := ParseTokens(tokens).value;
      var restBytes := ParseTokens(rest).value;
      assert bytes == [ParseU8(TrimEnd(tokens[0], ',')).value] + restBytes;
      assert forall i :: 1 <= i < |tokens| ==> tokens[i] == rest[i - 1];
      assert forall i :: 1 <= i < |bytes| ==> bytes[i] == restBytes[i - 1];
    }
  }

  /** The bytes of a camera row label (src/worker.rs:100); `None` where the source panics. */
  function ParseLabel(text: string): Option<seq<Byte>> {
    ParseTokens(SplitAsciiWhitespace(TrimEnd(TrimStart(text, '['), ']')))
  }

  /** Trimming trailing commas from a piece that ends in a digit, with or without one comma after it. */
  lemma TrimCommaAfterDigit(d: string)
    requires d != [] && IsDigit(d[|d| - 1])
    ensures TrimEnd(d, ',') == d
    ensures TrimEnd(d + ",", ',') == d
  {
    assert (d + ",")[..|d|] == d;
  }

  /** One step of `ParseTokens`: a parsed first piece in front of parsed others. */
  lemma ParseTokensCons(t: string, ts: seq<string>, b: Byte, rest: seq<Byte>)
    requires ParseU8(TrimEnd(t, ',')) == Some(b)
    requires ParseTokens(ts) == Some(rest)
    ensures ParseTokens([t] + ts) == Some([b] + rest)
  {
    assert ([t] + ts)[1..] == ts;
  }

  /** A piece, the ", " separator and the rest: the piece keeps its comma and the space is dropped. */
  lemma SplitAfterSeparator(d: string, rest: string)
    requires d != [] && NoWhitespace(d)
    ensures SplitAsciiWhitespace(d + ", " + rest) == [d + ","] + SplitAsciiWhitespace(rest)
  {
    assert d + ", " + rest == (d + ",") + (" " + rest);
    SplitLeadingWord(d + ",", " " + rest);
    assert (" " + rest)[1..] == rest;
  }

  lemma {:induction false} DebugBodyRoundTrip(id: seq<Byte>)
    ensures ParseTokens(SplitAsciiWhitespace(DebugBody(id))) == Some(id)
  {
    if |id| == 1 {
      LastByteRoundTrip(id[0]);
      assert [id[0]] == id;
    } else if |id| > 1 {
      DebugBodyRoundTrip(id[1..]);
      ByteThenRestRoundTrip(id[0], id[1..]);
      assert [id[0]] + id[1..] == id;
    }
  }

  /** The body of a one-byte id parses back to that byte. */
  lemma LastByteRoundTrip(b: Byte)
    ensures ParseTokens(SplitAsciiWhitespace(DecimalString(b))) == Some([b])
  {
    var d := DecimalString(b);
    ParseU8Decimal(b);
    TrimCommaAfterDigit(d);
    SplitLeadingWord(d, []);
    assert d + [] == d;
    ParseTokensCons(d, [], b, []);
    assert [b] + [] == [b];
  }

  /** A byte, the ", " separator and a body that parses: the byte goes in front of the parsed rest. */
  lemma ByteThenRestRoundTrip(b: Byte, rest: seq<Byte>)
    requires rest != []
    requires ParseTokens(SplitAsciiWhitespace(DebugBody(rest))) == Some(rest)
    ensures ParseTokens(SplitAsciiWhitespace(DecimalString(b) + ", " + DebugBody(rest))) == Some([b] + rest)
  {
    var d := DecimalString(b);
    var body := DebugBody(rest);
    var pieces := SplitAsciiWhitespace(body);
    assert NoWhitespace(d);
    SplitAfterSeparator(d, body);
    ParseU8Decimal(b);
    TrimCommaAfterDigit(d);
    ParseTokensCons(d + ",", pieces, b, rest);
  }

  /** `c` in front of a text that does not start with `c` is trimmed off, and nothing else. */
  lemma TrimStartOne(c: char, t: string)
    requires t == [] || t[0] != c
    ensures TrimStart([c] + t, c) == t
  {
    assert ([c] + t)[1..] == t;
  }

  /** `c` after a text that does not end with `c` is trimmed off, and nothing else. */
  lemma TrimEndOne(t: string, c: char)
    requires t == [] || t[|t| - 1] != c
    ensures TrimEnd(t + [c], c) == t
  {
    assert (t + [c])[..|t|] == t;
  }

  /** Trimming the brackets off `[w]` gives `w`, when `w` does not itself start with `[` or end with `]`. */
  lemma BracketsTrimmed(w: string)
    requires w == [] || (w[0] != '[' && w[|w| - 1] != ']')
    ensures TrimEnd(TrimStart("[" + w + "]", '['), ']') == w
  {
    var text := "[" + w + "]";
    var t := w + [']'];
    assert text == ['['] + t;
    assert t[0] != '[';
    TrimStartOne('[', t);
    assert TrimStart(text, '[') == t;
    TrimEndOne(w, ']');
  }

  /** Parsing a row label produced by `format!("{:?}", id)` gives back exactly `id`, the empty id included. */
  lemma FormatParseRoundTrip(id: seq<Byte>)
    ensures ParseLabel(FormatLabel(id)) == Some(id)
  {
    BracketsTrimmed(DebugBody(id));
    DebugBodyRoundTrip(id);
  }

  /** The rendering of the example device id of the stream protocol. */
  lemma FormatExample()
    ensures FormatLabel([1, 2, 3]) == "[1, 2, 3]"
  {
  }

  /** The row `[w]` with a single piece that is not a `u8` fails. */
  lemma SingleBadPieceRow(w: string)
    requires w != [] && NoWhitespace(w) && w[0] != '[' && w[|w| - 1] != ']'
    requires ParseU8(TrimEnd(w, ',')) == None
    ensures ParseLabel("[" + w + "]") == None
  {
    SingleWordRow(w);
    ParseTokensPiecewise([w]);
    assert [w][0] == w;
  }

  /** The row `[w]` holds the single piece `w`. */
  lemma SingleWordRow(w: string)
    requires w != [] && NoWhitespace(w) && w[0] != '[' && w[|w| - 1] != ']'
    ensures ParseLabel("[" + w + "]") == ParseTokens([w])
  {
    BracketsTrimmed(w);
    SplitLeadingWord(w, []);
    assert w + [] == w;
    assert SplitAsciiWhitespace(w) == [w];
    assert ParseLabel("[" + w + "]") == ParseTokens(SplitAsciiWhitespace(w));
  }

  /** A row naming a number that does not fit in a `u8`, such as `[256]`, fails. */
  lemma OutOfRangeRowFails(n: nat)
    requires n > 255
    ensures ParseLabel("[" + DecimalString(n) + "]") == None
  {
    var w := DecimalString(n);
    DecimalRoundTrip(n);
    TrimCommaAfterDigit(w);
    SingleBadPieceRow(w);
  }

  /** A row whose piece ends in something other than a digit, such as `[x]`, fails. */
  lemma NonNumericRowFails(w: string)
    requires w != [] && NoWhitespace(w) && w[0] != '['
    requires !IsDigit(w[|w| - 1]) && w[|w| - 1] != ',' && w[|w| - 1] != ']'
    ensures ParseLabel("[" + w + "]") == None
  {
    SingleBadPieceRow(w);
  }

  /** Two numbers separated by a comma but no space, `[1,2]`, are one piece, and it is not a number. */
  lemma RowWithoutSpacesFails(da: string, db: string)
    requires da != [] && AllDigits(da) && db != [] && AllDigits(db)
    ensures ParseLabel("[" + da + "," + db + "]") == None
  {
    var w := da + ("," + db);
    assert w[0] == da[0] && w[|da|] == ',' && w[|w| - 1] == db[|db| - 1];
    assert forall i :: 0 <= i < |w| ==> w[i] == ',' || IsDigit(w[i]);
    TrimCommaAfterDigit(w);
    assert "[" + da + "," + db + "]" == "[" + w + "]";
    SingleBadPieceRow(w);
  }

  // ---------------------------------------------------------------------
  // The camera list

  /** The rows shown for a received device list: one per device, in order (src/worker.rs:147). */
  function Rows(devices: seq<DeviceData>): (rows: seq<string>)
    ensures |rows| == |devices|
    ensures forall k :: 0 <= k < |devices| ==> rows[k] == FormatLabel(devices[k].id.data)
  {
    if devices == [] then [] else [FormatLabel(devices[0].id.data)] + Rows(devices[1..])
  }

  /**
   * The id the camera-change callback reads from row `index` (src/worker.rs:98-100).
   * The index arrives as an `i32` cast to `usize`, so a negative one is as far
   * out of range as a too large one; both panic, as does an unparseable row.
   */
  function SelectRow(rows: seq<string>, index: int): (r: Option<seq<Byte>>)
    ensures !(0 <= index < |rows|) ==> r == None
  {
    if 0 <= index < |rows| then ParseLabel(rows[index]) else None
  }

  /** Picking row `k` of a received list yields exactly the id of device `k`. */
  lemma SelectListedDevice(devices: seq<DeviceData>, k: int)
    requires 0 <= k < |devices|
    ensures SelectRow(Rows(devices), k) == Some(devices[k].id.data)
  {
    FormatParseRoundTrip(devices[k].id.data);
  }
}
