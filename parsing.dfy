/** Reading the console. Input is a sequence of lines read through an
    index. The month/year prompt reads a line as Python's `str.strip()`
    followed by `int()`; the menus call `int()` on the bare line. Both
    accept an optional sign and decimal digits between whitespace, but
    the whitespace differs: `str.strip()` also removes the separators
    0x1C to 0x1F, which `int()` refuses. A reading is defined twice, for
    either whitespace set: by a one-pass scanner (`Scan`), which the rest
    of the model uses, and by trim-then-convert (`Classify` of `Trim`),
    which follows the Python text; `ScanIsTrimThenConvert` proves them
    equal. */
module Parsing {

  datatype Option<T> = None | Some(value: T)

  /** The line at `pos` of an input stream, or None once the stream is
      exhausted (where `input()` raises EOFError). */
  function LineAt(lines: seq<string>, pos: nat): (r: Option<string>)
    ensures r.Some? <==> pos < |lines|
    ensures r.Some? ==> r.value == lines[pos]
  {
    if pos < |lines| then Some(lines[pos]) else None
  }

  /** The position after one `input()` at pos: one line further, or the
      same place when there is no line left to read. */
  function Advance(lines: seq<string>, pos: nat): (q: nat)
    requires pos <= |lines|
    ensures q <= |lines| && (q == pos + 1 <==> pos < |lines|) && (q == pos <==> pos == |lines|)
  {
    if pos < |lines| then pos + 1 else pos
  }

  /** The two whitespace sets: `str.strip()` removes ASCII whitespace as
      `str.isspace` sees it (space, tab, line feed, vertical tab, form
      feed, carriage return and the four separators 0x1C to 0x1F);
      `int()` skips only the first six around the number. */
  datatype Spacing = StripSpacing | IntSpacing

  predicate IsSpace(sp: Spacing, c: char) {
    c == ' ' || 9 <= c as int <= 13 || (sp.StripSpacing? && 28 <= c as int <= 31)
  }

  predicate IsDigit(c: char) {
    '0' <= c <= '9'
  }

  predicate AllSpace(sp: Spacing, w: string) {
    forall i :: 0 <= i < |w| ==> IsSpace(sp, w[i])
  }

  predicate AllDigits(d: string) {
    forall i :: 0 <= i < |d| ==> IsDigit(d[i])
  }

  function DigitValue(c: char): (n: nat)
    requires IsDigit(c)
    ensures n < 10
  {
    c as int - '0' as int
  }

  function DigitChar(n: nat): (c: char)
    requires n < 10
    ensures IsDigit(c) && DigitValue(c) == n
  {
    (n + '0' as int) as char
  }

  /** The value of a run of decimal digits, most significant first. */
  function DigitsValue(d: string): nat
    requires AllDigits(d)
  {
    if d == [] then 0 else 10 * DigitsValue(d[..|d| - 1]) + DigitValue(d[|d| - 1])
  }

  // ---------------------------------------------------------------------
  // The reference reading: trim, then convert
  // ---------------------------------------------------------------------

  /** The first position at or after i that is not whitespace. */
  function SpacesFrom(sp: Spacing, s: string, i: nat): (k: nat)
    requires i <= |s|
    ensures i <= k <= |s|
    ensures forall j :: i <= j < k ==> IsSpace(sp, s[j])
    ensures k < |s| ==> !IsSpace(sp, s[k])
    decreases |s| - i
  {
    if i < |s| && IsSpace(sp, s[i]) then SpacesFrom(sp, s, i + 1) else i
  }

  /** The start of the whitespace run that ends at k. */
  function SpacesBefore(sp: Spacing, s: string, k: nat): (j: nat)
    requires k <= |s|
    ensures j <= k
    ensures forall i :: j <= i < k ==> IsSpace(sp, s[i])
    ensures 0 < j ==> !IsSpace(sp, s[j - 1])
  {
    if 0 < k && IsSpace(sp, s[k - 1]) then SpacesBefore(sp, s, k - 1) else k
  }

  /** The line without leading and trailing whitespace of the given set. */
  function Trim(sp: Spacing, s: string): string {
    var l := s[SpacesFrom(sp, s, 0)..];
    l[..SpacesBefore(sp, l, |l|)]
  }

  /** `str.strip()`. */
  function Strip(s: string): string {
    Trim(StripSpacing, s)
  }

  /** A trimmed line is empty exactly when the line is all whitespace
      (for `str.strip()`, the `if not entrada` test of the month/year
      prompt). */
  lemma TrimEmptyIffBlank(sp: Spacing, s: string)
    ensures Trim(sp, s) == "" <==> AllSpace(sp, s)
  {
    var a := SpacesFrom(sp, s, 0);
    var l := s[a..];
    if a < |s| {
      assert l[0] == s[a];
      assert !AllSpace(sp, s);
    }
  }

  /** A text `int()` accepts once trimmed: an optional sign and at least one digit. */
  predicate IsDecimal(t: string) {
    if t != [] && (t[0] == '+' || t[0] == '-') then t[1..] != [] && AllDigits(t[1..])
    else t != [] && AllDigits(t)
  }

  function DecimalValue(t: string): int
    requires IsDecimal(t)
  {
    if t[0] == '-' then -(DigitsValue(t[1..]) as int)
    else if t[0] == '+' then DigitsValue(t[1..])
    else DigitsValue(t)
  }

  /** What a program learns from one input line: nothing but whitespace,
      an integer, or a text `int()` refuses with ValueError. */
  datatype Reading = Blank | Number(value: int) | NotNumber

  /** A text without surrounding whitespace read as `int()` would. */
  function Classify(t: string): Reading {
    if t == [] then Blank
    else if IsDecimal(t) then Number(DecimalValue(t))
    else NotNumber
  }

  /** `line.strip()`, then `int()` of the result: that `int()` finds no
      whitespace of its own left to skip. */
  function StripThenInt(line: string): Reading {
    Classify(Strip(line))
  }

  // ---------------------------------------------------------------------
  // The scanner
  // ---------------------------------------------------------------------

  /** Where the scanner is within a line: in the leading whitespace, just
      after a sign, in the digits (with their value so far), in the
      trailing whitespace, or past a character that rules out a number. */
  datatype Scanner = Lead | Sign(neg: bool) | Digits(neg: bool, n: nat) | Trail(neg: bool, n: nat) | Junk

  function Step(sp: Spacing, st: Scanner, c: char): Scanner {
    match st
    case Lead =>
      if IsSpace(sp, c) then Lead
      else if c == '+' then Sign(false)
      else if c == '-' then Sign(true)
      else if IsDigit(c) then Digits(false, DigitValue(c))
      else Junk
    case Sign(neg) => if IsDigit(c) then Digits(neg, DigitValue(c)) else Junk
    case Digits(neg, n) =>
      if IsDigit(c) then Digits(neg, 10 * n + DigitValue(c))
      else if IsSpace(sp, c) then Trail(neg, n)
      else Junk
    case Trail(neg, n) => if IsSpace(sp, c) then Trail(neg, n) else Junk
    case Junk => Junk
  }

  /** The scanner state after the characters of s, from st. */
  function Run(sp: Spacing, st: Scanner, s: string): Scanner
    decreases |s|
  {
    if s == [] then st else Run(sp, Step(sp, st, s[0]), s[1..])
  }

  /** The value of digits n under a sign. */
  function Signed(neg: bool, n: nat): int {
    if neg then -(n as int) else n
  }

  function Finish(st: Scanner): Reading {
    match st
    case Lead => Blank
    case Digits(neg, n) => Number(Signed(neg, n))
    case Trail(neg, n) => Number(Signed(neg, n))
    case _ => NotNumber
  }

  /** A line scanned with the given whitespace set. */
  function Scan(sp: Spacing, line: string): Reading {
    Finish(Run(sp, Lead, line))
  }

  /** A line as the month/year prompt reads it: `line.strip()`, then `int()`. */
  function Read(line: string): Reading {
    Scan(StripSpacing, line)
  }

  /** `int(line)` on the bare line, as both menus call it: None where
      Python raises ValueError. */
  function ParseInt(line: string): Option<int> {
    match Scan(IntSpacing, line)
    case Number(n) => Some(n)
    case _ => None
  }

  lemma {:induction false} RunAppend(sp: Spacing, st: Scanner, s: string, x: string)
    ensures Run(sp, st, s + x) == Run(sp, Run(sp, st, s), x)
    decreases |s|
  {
    if s != [] {
      assert (s + x)[0] == s[0];
      assert (s + x)[1..] == s[1..] + x;
      RunAppend(sp, Step(sp, st, s[0]), s[1..], x);
    } else {
      assert s + x == x;
    }
  }

  lemma RunOne(sp: Spacing, st: Scanner, c: char)
    ensures Run(sp, st, [c]) == Step(sp, st, c)
  {
    assert [c][1..] == [];
  }

  /** Whitespace leaves the leading, trailing and failed states where they are. */
  lemma {:induction false} RunSpaces(sp: Spacing, st: Scanner, w: string)
    requires st.Lead? || st.Trail? || st.Junk?
    requires AllSpace(sp, w)
    ensures Run(sp, st, w) == st
    decreases |w|
  {
    if w != [] {
      RunSpaces(sp, Step(sp, st, w[0]), w[1..]);
    }
  }

  lemma {:induction false} RunJunk(sp: Spacing, x: string)
    ensures Run(sp, Junk, x) == Junk
    decreases |x|
  {
    if x != [] {
      RunJunk(sp, x[1..]);
    }
  }

  /** A first digit, after the sign or at the start, begins the digits. */
  lemma StepFirstDigit(sp: Spacing, start: Scanner, neg: bool, c: char)
    requires start == Sign(neg) || (start == Lead && !neg)
    requires IsDigit(c)
    ensures Step(sp, start, c) == Digits(neg, DigitValue(c))
  {
    assert !IsSpace(sp, c) && c != '+' && c != '-';
  }

  /** A further digit shifts the digits read so far by one place. */
  lemma StepDigit(sp: Spacing, neg: bool, n: nat, c: char)
    requires IsDigit(c)
    ensures Step(sp, Digits(neg, n), c) == Digits(neg, 10 * n + DigitValue(c))
  {
  }

  /** A run of digits after the sign (or at the start) is read as its value. */
  lemma {:induction false} RunDigits(sp: Spacing, start: Scanner, neg: bool, d: string)
    requires start == Sign(neg) || (start == Lead && !neg)
    requires d != [] && AllDigits(d)
    ensures Run(sp, start, d) == Digits(neg, DigitsValue(d))
    decreases |d|
  {
    var init, c := d[..|d| - 1], d[|d| - 1];
    assert d == init + [c];
    assert IsDigit(c);
    assert AllDigits(init) by {
      forall i | 0 <= i < |init| ensures IsDigit(init[i]) {
        assert init[i] == d[i];
      }
    }
    assert DigitsValue(d) == 10 * DigitsValue(init) + DigitValue(c);
    RunAppend(sp, start, init, [c]);
    if init != [] {
      RunDigits(sp, start, neg, init);
      RunOne(sp, Digits(neg, DigitsValue(init)), c);
      StepDigit(sp, neg, DigitsValue(init), c);
    } else {
      assert DigitsValue(init) == 0;
      RunOne(sp, start, c);
      StepFirstDigit(sp, start, neg, c);
    }
  }

  /** In the trailing whitespace, a later non-space character rules out a number. */
  lemma {:induction false} TrailMeetsText(sp: Spacing, neg: bool, n: nat, x: string, k: nat)
    requires k < |x| && !IsSpace(sp, x[k])
    ensures Run(sp, Trail(neg, n), x) == Junk
    decreases |x|
  {
    if IsSpace(sp, x[0]) {
      TrailMeetsText(sp, neg, n, x[1..], k - 1);
    } else {
      RunJunk(sp, x[1..]);
    }
  }

  /** Digits followed only by whitespace are a number. */
  lemma DigitsThenSpaces(sp: Spacing, neg: bool, n: nat, v: string)
    requires AllSpace(sp, v)
    ensures Finish(Run(sp, Digits(neg, n), v)) == Number(Signed(neg, n))
  {
    if v != [] {
      RunSpaces(sp, Trail(neg, n), v[1..]);
    }
  }

  /** In the digits, a text that is not all digits and ends in a
      non-space leaves the scanner in the failed state. */
  lemma {:induction false} DigitsMeetText(sp: Spacing, neg: bool, n: nat, s: string)
    requires s != [] && !IsSpace(sp, s[|s| - 1]) && !AllDigits(s)
    ensures Run(sp, Digits(neg, n), s) == Junk
    decreases |s|
  {
    var c, rest := s[0], s[1..];
    if IsDigit(c) {
      assert rest[|rest| - 1] == s[|s| - 1];
      DigitsMeetText(sp, neg, 10 * n + DigitValue(c), rest);
    } else if IsSpace(sp, c) {
      assert rest[|rest| - 1] == s[|s| - 1];
      TrailMeetsText(sp, neg, n, rest, |rest| - 1);
    } else {
      RunJunk(sp, rest);
    }
  }

  /** After the sign (or at the start), a body that holds a non-digit and
      ends in a non-space leaves the scanner in the failed state. */
  lemma BrokenDigits(sp: Spacing, start: Scanner, neg: bool, body: string)
    requires start == Sign(neg) || (start == Lead && !neg && body != [] && !IsSpace(sp, body[0]) && body[0] != '+' && body[0] != '-')
    requires body != [] && !IsSpace(sp, body[|body| - 1]) && !AllDigits(body)
    ensures Run(sp, start, body) == Junk
  {
    var c, rest := body[0], body[1..];
    if IsDigit(c) {
      StepFirstDigit(sp, start, neg, c);
      assert rest[|rest| - 1] == body[|body| - 1];
      DigitsMeetText(sp, neg, DigitValue(c), rest);
    } else {
      RunJunk(sp, rest);
    }
  }

  /** After the sign (or at the start), a body that is not a digit run, and
      that ends in a non-space, is not a number whatever whitespace follows. */
  lemma NotDigitsBody(sp: Spacing, start: Scanner, neg: bool, body: string, v: string)
    requires start == Sign(neg) || (start == Lead && !neg && body != [] && !IsSpace(sp, body[0]) && body[0] != '+' && body[0] != '-')
    requires body == [] || !IsSpace(sp, body[|body| - 1])
    requires !(body != [] && AllDigits(body))
    requires AllSpace(sp, v)
    ensures Finish(Run(sp, start, body + v)) == NotNumber
  {
    RunAppend(sp, start, body, v);
    if body == [] {
      if v != [] {
        RunJunk(sp, v[1..]);
      }
    } else {
      BrokenDigits(sp, start, neg, body);
      RunJunk(sp, v);
    }
  }

  /** A trimmed text followed by whitespace scans as `int()` converts it. */
  lemma ScanTrimmed(sp: Spacing, t: string, v: string)
    requires t == [] || (!IsSpace(sp, t[0]) && !IsSpace(sp, t[|t| - 1]))
    requires AllSpace(sp, v)
    ensures Finish(Run(sp, Lead, t + v)) == Classify(t)
  {
    if t == [] {
      assert t + v == v;
      RunSpaces(sp, Lead, v);
    } else if t[0] == '+' || t[0] == '-' {
      var neg := t[0] == '-';
      var body := t[1..];
      assert t + v == [t[0]] + (body + v);
      RunAppend(sp, Lead, [t[0]], body + v);
      if IsDecimal(t) {
        RunAppend(sp, Sign(neg), body, v);
        RunDigits(sp, Sign(neg), neg, body);
        DigitsThenSpaces(sp, neg, DigitsValue(body), v);
      } else {
        assert body != [] ==> body[|body| - 1] == t[|t| - 1];
        NotDigitsBody(sp, Sign(neg), neg, body, v);
      }
    } else if IsDecimal(t) {
      RunAppend(sp, Lead, t, v);
      RunDigits(sp, Lead, false, t);
      DigitsThenSpaces(sp, false, DigitsValue(t), v);
    } else {
      NotDigitsBody(sp, Lead, false, t, v);
    }
  }

  /** A line is its leading whitespace, its trimmed text and its trailing
      whitespace; the trimmed text neither starts nor ends with
      whitespace. */
  lemma TrimParts(sp: Spacing, line: string) returns (pre: string, t: string, v: string)
    ensures line == pre + (t + v) && t == Trim(sp, line)
    ensures AllSpace(sp, pre) && AllSpace(sp, v)
    ensures t == [] || (!IsSpace(sp, t[0]) && !IsSpace(sp, t[|t| - 1]))
  {
    var a := SpacesFrom(sp, line, 0);
    var l := line[a..];
    var b := SpacesBefore(sp, l, |l|);
    pre, t, v := line[..a], l[..b], l[b..];
    assert line == pre + (t + v);
    forall i | 0 <= i < |pre| ensures IsSpace(sp, pre[i]) {
      assert pre[i] == line[i];
    }
    forall i | 0 <= i < |v| ensures IsSpace(sp, v[i]) {
      assert v[i] == l[b + i];
    }
    if t != [] {
      assert t[0] == line[a];
      assert t[|t| - 1] == l[b - 1];
    }
  }

  /** The scanner reads every line exactly as trimming the whitespace of
      its set and then converting the text does. */
  lemma ScanIsTrimThenConvert(sp: Spacing, line: string)
    ensures Scan(sp, line) == Classify(Trim(sp, line))
  {
    var pre, t, v := TrimParts(sp, line);
    RunAppend(sp, Lead, pre, t + v);
    RunSpaces(sp, Lead, pre);
    ScanTrimmed(sp, t, v);
  }

  /** The prompt's reading is `line.strip()` followed by `int()`. */
  lemma ReadIsStripThenInt(line: string)
    ensures Read(line) == StripThenInt(line)
  {
    ScanIsTrimThenConvert(StripSpacing, line);
  }

  /** Bare `int(line)` succeeds exactly on a line that is a decimal text
      once its own whitespace (space, 0x09 to 0x0D) is trimmed, and then
      gives its value. */
  lemma ParseIntIsInt(line: string)
    ensures ParseInt(line).Some? <==> IsDecimal(Trim(IntSpacing, line))
    ensures ParseInt(line).Some? ==> ParseInt(line).value == DecimalValue(Trim(IntSpacing, line))
  {
    ScanIsTrimThenConvert(IntSpacing, line);
  }

  /** A prompt line reads as Blank exactly when it is all whitespace. */
  lemma BlankIffAllSpace(line: string)
    ensures Read(line) == Blank <==> AllSpace(StripSpacing, line)
  {
    ReadIsStripThenInt(line);
    TrimEmptyIffBlank(StripSpacing, line);
  }

  /** A separator (0x1C to 0x1F) fails the bare scan from any state; short
      of that, both scans go through the same states. */
  lemma {:induction false} BareScanNarrower(st: Scanner, s: string)
    ensures Run(IntSpacing, st, s) == Junk || Run(StripSpacing, st, s) == Run(IntSpacing, st, s)
    decreases |s|
  {
    if s != [] {
      var c := s[0];
      if Step(IntSpacing, st, c) == Junk {
        RunJunk(IntSpacing, s[1..]);
      } else {
        assert Step(StripSpacing, st, c) == Step(IntSpacing, st, c);
        BareScanNarrower(Step(IntSpacing, st, c), s[1..]);
      }
    }
  }

  /** Every number the bare `int(line)` accepts, strip-then-`int()` reads
      the same. */
  lemma BareIntAgreesWithStrip(line: string)
    ensures ParseInt(line).Some? ==> Read(line) == Number(ParseInt(line).value)
  {
    BareScanNarrower(Lead, line);
  }

  /** The converse fails: a line that starts with the separator 0x1C reads
      as 1 after `strip()` and is refused by bare `int()`. */
  lemma SeparatorOnlyStripped()
    ensures Read([28 as char, '1']) == Number(1)
    ensures ParseInt([28 as char, '1']) == None
  {
    var line := [28 as char, '1'];
    assert line[1..] == ['1'];
    assert Step(StripSpacing, Lead, line[0]) == Lead;
    RunOne(StripSpacing, Lead, '1');
    assert Step(IntSpacing, Lead, line[0]) == Junk;
    RunJunk(IntSpacing, line[1..]);
  }

  // ---------------------------------------------------------------------
  // Rendering numbers: the texts a user types
  // ---------------------------------------------------------------------

  /** The decimal rendering of a natural number, without leading zeros. */
  function ShowNat(n: nat): (s: string)
    ensures s != [] && AllDigits(s)
  {
    if n < 10 then [DigitChar(n)] else ShowNat(n / 10) + [DigitChar(n % 10)]
  }

  /** The decimal rendering of an integer, `str(n)`. */
  function ShowInt(n: int): string {
    if n < 0 then "-" + ShowNat(-n) else ShowNat(n)
  }

  lemma {:induction false} DigitsOfShowNat(n: nat)
    ensures DigitsValue(ShowNat(n)) == n
  {
    if n >= 10 {
      var s := ShowNat(n);
      assert s[..|s| - 1] == ShowNat(n / 10);
      DigitsOfShowNat(n / 10);
    }
  }

  /** A line holding `str(n)`, with any surrounding whitespace of the set,
      scans as n. */
  lemma ScanShowInt(sp: Spacing, n: int, pre: string, post: string)
    requires AllSpace(sp, pre) && AllSpace(sp, post)
    ensures Scan(sp, pre + ShowInt(n) + post) == Number(n)
  {
    var s := ShowInt(n);
    assert pre + s + post == pre + (s + post);
    RunAppend(sp, Lead, pre, s + post);
    RunSpaces(sp, Lead, pre);
    var digits := if n < 0 then ShowNat(-n) else ShowNat(n);
    DigitsOfShowNat(if n < 0 then -n else n);
    if n < 0 {
      assert s + post == ([s[0]] + digits) + post;
      RunAppend(sp, Lead, [s[0]] + digits, post);
      RunAppend(sp, Lead, [s[0]], digits);
      RunDigits(sp, Sign(true), true, digits);
    } else {
      RunAppend(sp, Lead, s, post);
      RunDigits(sp, Lead, false, digits);
    }
    DigitsThenSpaces(sp, n < 0, DigitsValue(digits), post);
  }

  /** A menu line holding `str(n)` between spaces, tabs or line ends is
      accepted by bare `int()` as n. */
  lemma ParseShowInt(n: int, pre: string, post: string)
    requires AllSpace(IntSpacing, pre) && AllSpace(IntSpacing, post)
    ensures ParseInt(pre + ShowInt(n) + post) == Some(n)
  {
    ScanShowInt(IntSpacing, n, pre, post);
  }

  /** The bare text `str(n)` reads as n either way. */
  lemma ReadsAs(n: int)
    ensures Read(ShowInt(n)) == Number(n) && ParseInt(ShowInt(n)) == Some(n)
  {
    assert "" + ShowInt(n) + "" == ShowInt(n);
    ScanShowInt(StripSpacing, n, "", "");
    ScanShowInt(IntSpacing, n, "", "");
  }
}
