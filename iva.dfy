/** The IVA (value-added tax) ledger module of fer110.py: the guarded
    month/year prompt `pide`, the two sub-menu selectors and the module's
    own menu loop. Console input is a sequence of lines read through an
    index; the placeholder sub-programs fer111, fer112 and fer113 are
    recorded as events of the loop's trace. */
module Iva {
  import opened Parsing

  /** MESES: index 0 is a blank filler so that month m is at index m. */
  const MonthNames: seq<string> := [
    "", "ENERO", "FEBRERO", "MARZO", "ABRIL", "MAYO", "JUNIO",
    "JULIO", "AGOSTO", "SEPTIEMBRE", "OCTUBRE", "NOVIEMBRE", "DICIEMBRE"
  ]

  /** The display name of a month, as the prompt and the loop print it. */
  function MonthName(m: int): (name: string)
    requires 1 <= m <= 12
    ensures name != "" && name == MonthNames[m]
  {
    MonthNames[m]
  }

  lemma MonthNamesShape()
    ensures |MonthNames| == 13 && MonthNames[0] == ""
    ensures forall m :: 1 <= m <= 12 ==> MonthNames[m] != ""
    ensures forall m, n :: 1 <= m < n <= 12 ==> MonthNames[m] != MonthNames[n]
  {
  }

  // ---------------------------------------------------------------------
  // pide: the guarded month/year prompt
  // ---------------------------------------------------------------------

  /** Outcome of `pide`: the user backed out with an empty line, a validated
      pair, or the input ran out (an uncaught EOFError in the source). */
  datatype Prompt = Cancelled | Chosen(month: int, year: int) | OutOfInput

  const MinMonth := 1
  const MaxMonth := 12
  const MinYear := 0
  const MaxYear := 9999

  /** A line that ends one of the prompt's loops: empty once stripped
      (cancel), or an integer in lo..hi (accept). Any other line is
      rejected with a warning and the same question is asked again. */
  predicate Settles(line: string, lo: int, hi: int) {
    match Read(line)
    case Blank => true
    case Number(n) => lo <= n <= hi
    case NotNumber => false
  }

  /** The index of the first line at or after pos that ends a loop asking
      for a value in lo..hi, or |lines| when the input runs out first. */
  function NextSettling(lines: seq<string>, pos: nat, lo: int, hi: int): (k: nat)
    requires pos <= |lines|
    ensures pos <= k <= |lines|
    decreases |lines| - pos
  {
    if pos == |lines| || Settles(lines[pos], lo, hi) then pos
    else NextSettling(lines, pos + 1, lo, hi)
  }

  /** No line in lines[from..to] ends a loop asking for a value in lo..hi. */
  predicate AllRejected(lines: seq<string>, from: nat, to: nat, lo: int, hi: int)
    requires from <= to <= |lines|
  {
    forall i :: from <= i < to ==> !Settles(lines[i], lo, hi)
  }

  /** NextSettling skips only lines that do not settle, and stops on one
      that does unless the input ran out. */
  lemma {:induction false} NextSettlingShape(lines: seq<string>, pos: nat, lo: int, hi: int)
    requires pos <= |lines|
    ensures var k := NextSettling(lines, pos, lo, hi);
      AllRejected(lines, pos, k, lo, hi) && (k < |lines| ==> Settles(lines[k], lo, hi))
    decreases |lines| - pos
  {
    if pos < |lines| && !Settles(lines[pos], lo, hi) {
      NextSettlingShape(lines, pos + 1, lo, hi);
    }
  }

  /** The line is accepted as the value v of a loop asking for lo..hi. */
  predicate Accepts(line: string, lo: int, hi: int, v: int) {
    Read(line) == Number(v) && lo <= v <= hi
  }

  /** What `pide` does with the input from pos on: the outcome and the
      position of the first line it did not read. */
  function PideSpec(lines: seq<string>, pos: nat): (r: (Prompt, nat))
    requires pos <= |lines|
    ensures pos <= r.1 <= |lines|
    ensures r.0 == OutOfInput ==> r.1 == |lines|
    ensures r.0.Chosen? ==> MinMonth <= r.0.month <= MaxMonth && MinYear <= r.0.year <= MaxYear
  {
    var k := NextSettling(lines, pos, MinMonth, MaxMonth);
    NextSettlingShape(lines, pos, MinMonth, MaxMonth);
    if k == |lines| then (OutOfInput, k)
    else if Read(lines[k]) == Blank then (Cancelled, k + 1)
    else
      var j := NextSettling(lines, k + 1, MinYear, MaxYear);
      NextSettlingShape(lines, k + 1, MinYear, MaxYear);
      if j == |lines| then (OutOfInput, j)
      else if Read(lines[j]) == Blank then (Cancelled, j + 1)
      else (Chosen(Read(lines[k]).value, Read(lines[j]).value), j + 1)
  }

  /** The last line `pide` reads decides it: an empty line cancels and an
      accepted year completes the pair; either way that line would settle
      the year loop. */
  lemma PideSpecLastLine(lines: seq<string>, pos: nat)
    requires pos <= |lines|
    ensures var (r, next) := PideSpec(lines, pos);
      (r != OutOfInput ==> pos < next && Settles(lines[next - 1], MinYear, MaxYear))
      && (r == Cancelled ==> Read(lines[next - 1]) == Blank)
      && (r.Chosen? ==> Accepts(lines[next - 1], MinYear, MaxYear, r.year))
  {
    var k := NextSettling(lines, pos, MinMonth, MaxMonth);
    NextSettlingShape(lines, pos, MinMonth, MaxMonth);
    if k < |lines| && Read(lines[k]) != Blank {
      NextSettlingShape(lines, k + 1, MinYear, MaxYear);
    }
  }

  /** The first line that settles a loop is the one NextSettling finds. */
  lemma {:induction false} NextSettlingIs(lines: seq<string>, pos: nat, k: nat, lo: int, hi: int)
    requires pos <= k < |lines|
    requires AllRejected(lines, pos, k, lo, hi) && Settles(lines[k], lo, hi)
    ensures NextSettling(lines, pos, lo, hi) == k
    decreases k - pos
  {
    if pos < k {
      assert !Settles(lines[pos], lo, hi);
      NextSettlingIs(lines, pos + 1, k, lo, hi);
    }
  }

  /** An empty month line, after any number of rejected ones, cancels at
      once: the line after it is not read, so no year is asked. */
  lemma PideCancelledAtMonth(lines: seq<string>, pos: nat, k: nat)
    requires pos <= k < |lines|
    requires AllRejected(lines, pos, k, MinMonth, MaxMonth) && Read(lines[k]) == Blank
    ensures PideSpec(lines, pos) == (Cancelled, k + 1)
  {
    NextSettlingIs(lines, pos, k, MinMonth, MaxMonth);
  }

  /** An empty year line after an accepted month cancels the whole prompt:
      there is no partial result. */
  lemma PideCancelledAtYear(lines: seq<string>, pos: nat, k: nat, j: nat, m: int)
    requires pos <= k < j < |lines|
    requires AllRejected(lines, pos, k, MinMonth, MaxMonth) && Accepts(lines[k], MinMonth, MaxMonth, m)
    requires AllRejected(lines, k + 1, j, MinYear, MaxYear) && Read(lines[j]) == Blank
    ensures PideSpec(lines, pos) == (Cancelled, j + 1)
  {
    NextSettlingIs(lines, pos, k, MinMonth, MaxMonth);
    NextSettlingIs(lines, k + 1, j, MinYear, MaxYear);
  }

  /** Rejected month lines, an accepted month, rejected year lines and an
      accepted year give exactly that pair. */
  lemma PideChosenFrom(lines: seq<string>, pos: nat, k: nat, j: nat, m: int, y: int)
    requires pos <= k < j < |lines|
    requires AllRejected(lines, pos, k, MinMonth, MaxMonth) && Accepts(lines[k], MinMonth, MaxMonth, m)
    requires AllRejected(lines, k + 1, j, MinYear, MaxYear) && Accepts(lines[j], MinYear, MaxYear, y)
    ensures PideSpec(lines, pos) == (Chosen(m, y), j + 1)
  {
    NextSettlingIs(lines, pos, k, MinMonth, MaxMonth);
    NextSettlingIs(lines, k + 1, j, MinYear, MaxYear);
  }

  /** Conversely, a pair returned by `pide` is the first accepted month line
      followed by the first accepted year line after it; the year stage
      starts only after the month was accepted. */
  lemma PideChosenShape(lines: seq<string>, pos: nat)
    requires pos <= |lines| && PideSpec(lines, pos).0.Chosen?
    ensures var (r, next) := PideSpec(lines, pos);
      exists k :: pos <= k < next - 1 && AllRejected(lines, pos, k, MinMonth, MaxMonth)
        && Accepts(lines[k], MinMonth, MaxMonth, r.month)
        && AllRejected(lines, k + 1, next - 1, MinYear, MaxYear)
        && Accepts(lines[next - 1], MinYear, MaxYear, r.year)
  {
    var k := NextSettling(lines, pos, MinMonth, MaxMonth);
    NextSettlingShape(lines, pos, MinMonth, MaxMonth);
    NextSettlingShape(lines, k + 1, MinYear, MaxYear);
  }

  /** Every month `pide` returns has a non-empty name in MonthNames. */
  lemma PideMonthHasName(lines: seq<string>, pos: nat)
    requires pos <= |lines| && PideSpec(lines, pos).0.Chosen?
    ensures 0 <= PideSpec(lines, pos).0.month < |MonthNames|
    ensures MonthNames[PideSpec(lines, pos).0.month] != ""
  {
    var m := PideSpec(lines, pos).0.month;
    assert MonthName(m) != "";
  }

  /** `pide`: reads month lines until one is empty (cancel) or an integer
      in 1..12, then year lines until one is empty (cancel) or an integer
      in 0..9999. Running out of lines is an EOFError in the source. */
  method Pide(lines: seq<string>, pos: nat) returns (r: Prompt, next: nat)
    requires pos <= |lines|
    ensures (r, next) == PideSpec(lines, pos)
  {
    next := pos;
    var month := 0;
    while true
      invariant pos <= next <= |lines|
      invariant NextSettling(lines, next, MinMonth, MaxMonth) == NextSettling(lines, pos, MinMonth, MaxMonth)
      decreases |lines| - next
    {
      if next == |lines| {
        return OutOfInput, next;
      }
      var entry := Read(lines[next]);
      next := next + 1;
      if entry == Blank {
        return Cancelled, next;
      }
      if entry.Number? && MinMonth <= entry.value <= MaxMonth {
        month := entry.value;
        break;
      }
    }
    ghost var monthLine := next - 1;
    var year := 0;
    while true
      invariant monthLine < next <= |lines|
      invariant NextSettling(lines, next, MinYear, MaxYear) == NextSettling(lines, monthLine + 1, MinYear, MaxYear)
      decreases |lines| - next
    {
      if next == |lines| {
        return OutOfInput, next;
      }
      var entry := Read(lines[next]);
      next := next + 1;
      if entry == Blank {
        return Cancelled, next;
      }
      if entry.Number? && MinYear <= entry.value <= MaxYear {
        year := entry.value;
        break;
      }
    }
    r := Chosen(month, year);
  }

  /** An empty month line cancels at once. */
  lemma PideExampleCancel()
    ensures PideSpec([""], 0) == (Cancelled, 1)
  {
    PideCancelledAtMonth([""], 0, 0);
  }

  /** "13" is rejected, "7" accepted as the month, then "2024" as the year. */
  lemma PideExampleMonthRetry()
    ensures PideSpec(["13", "7", "2024"], 0) == (Chosen(7, 2024), 3)
  {
    var lines := ["13", "7", "2024"];
    PideChosenFrom(lines, 0, 1, 2, 7, 2024);
  }

  /** "7" is accepted as the month, "10000" rejected and "2024" accepted as the year. */
  lemma PideExampleYearRetry()
    ensures PideSpec(["7", "10000", "2024"], 0) == (Chosen(7, 2024), 3)
  {
    var lines := ["7", "10000", "2024"];
    PideChosenFrom(lines, 0, 0, 2, 7, 2024);
  }

  // ---------------------------------------------------------------------
  // The two selectors of the sub-menu
  // ---------------------------------------------------------------------

  /** The ledger side; `Code` is the origin letter passed to fer111..fer113. */
  datatype Side = Sales | Purchases {
    function Code(): string {
      if Sales? then "V" else "C"
    }
    function MenuNumber(): int {
      if Sales? then 1 else 2
    }
  }

  /** `menu_tipo_iva`: 1 is Sales, 2 is Purchases; any other integer, a
      line that is not an integer and end of input (line None) leave. */
  function SelectSide(line: Option<string>): (r: Option<Side>)
    ensures r == Some(Sales) <==> line.Some? && ParseInt(line.value) == Some(1)
    ensures r == Some(Purchases) <==> line.Some? && ParseInt(line.value) == Some(2)
    ensures r == Some(Sales) ==> r.value.Code() == "V"
    ensures r == Some(Purchases) ==> r.value.Code() == "C"
  {
    match line
    case None => None
    case Some(text) =>
      var opc := ParseInt(text);
      if opc == Some(1) then Some(Sales)
      else if opc == Some(2) then Some(Purchases)
      else None
  }

  /** Typing the number a side is listed under selects that side. */
  lemma SelectSideByNumber(side: Side, pre: string, post: string)
    requires AllSpace(IntSpacing, pre) && AllSpace(IntSpacing, post)
    ensures SelectSide(Some(pre + ShowInt(side.MenuNumber()) + post)) == Some(side)
  {
    ParseShowInt(side.MenuNumber(), pre, post);
  }

  /** "1" preceded by the separator 0x1C selects no side: bare `int()`
      refuses it, although `strip()` would remove the separator. */
  lemma SelectSideRefusesSeparator()
    ensures SelectSide(Some([28 as char, '1'])) == None
  {
    SeparatorOnlyStripped();
  }

  const GenerateLedger := 1
  const AccumulatePeriod := 2
  const ProgressionChart := 3

  /** `menu_opciones_iva`: the parsed operation when it is 1, 2 or 3; None
      (back) for any other integer, a non-integer line or end of input. */
  function SelectOperation(line: Option<string>): (r: Option<int>)
    ensures r.Some? <==> line.Some? && ParseInt(line.value).Some?
                         && GenerateLedger <= ParseInt(line.value).value <= ProgressionChart
    ensures r.Some? ==> r == ParseInt(line.value)
  {
    match line
    case None => None
    case Some(text) =>
      match ParseInt(text)
      case None => None
      case Some(opc) => if opc in {1, 2, 3} then Some(opc) else None
  }

  // ---------------------------------------------------------------------
  // The module's loop
  // ---------------------------------------------------------------------

  /** The placeholder sub-programs: fer111 emits the ledger, fer112 the
      period totals, fer113 the progression chart. Each ends by waiting
      for Enter, which reads one line. */
  datatype Subprogram = Fer111 | Fer112 | Fer113

  /** One pass of the loop after a side was chosen: the operation selected
      (None is "back"), the outcome of `pide` if it was consulted, the
      sub-program that ran, with the side as its origin, and whether the
      input ran out inside the pass (in `pide` or at the sub-program's
      pause), an EOFError nothing catches, which ends the module. */
  datatype Round = Round(side: Side, operation: Option<int>, prompt: Option<Prompt>, ran: Option<Subprogram>, eof: bool)

  predicate PairChosen(p: Option<Prompt>) {
    p.Some? && p.value.Chosen?
  }

  /** The rules every pass of the loop obeys. */
  predicate RoundLaw(r: Round) {
    // "back": nothing is asked and nothing runs
    (r.operation.None? ==> r.prompt.None? && r.ran.None? && !r.eof)
    // options 1 and 2 consult `pide` and run fer111 / fer112 only on a pair
    && (r.operation == Some(GenerateLedger) || r.operation == Some(AccumulatePeriod) <==> r.prompt.Some?)
    && (r.ran == Some(Fer111) <==> r.operation == Some(GenerateLedger) && PairChosen(r.prompt))
    && (r.ran == Some(Fer112) <==> r.operation == Some(AccumulatePeriod) && PairChosen(r.prompt))
    // option 3 runs fer113 without consulting `pide`
    && (r.ran == Some(Fer113) <==> r.operation == Some(ProgressionChart))
    && (PairChosen(r.prompt) ==> MinMonth <= r.prompt.value.month <= MaxMonth
                                 && MinYear <= r.prompt.value.year <= MaxYear)
    // the input runs out in `pide` or at a sub-program's pause
    && (r.prompt == Some(OutOfInput) ==> r.eof)
    && (r.eof ==> r.prompt == Some(OutOfInput) || r.ran.Some?)
  }

  /** The operation menu and what follows it, read from p on, for a chosen side. */
  function PlayRound(side: Side, lines: seq<string>, p: nat): (r: (Round, nat))
    requires p <= |lines|
    ensures p <= r.1 <= |lines|
    ensures r.0.side == side && r.0.operation == SelectOperation(LineAt(lines, p))
    ensures r.0.eof ==> r.1 == |lines|
  {
    var operation := SelectOperation(LineAt(lines, p));
    var q := Advance(lines, p);
    match operation
    case None => (Round(side, None, None, None, false), q)
    case Some(opc) =>
      if opc == ProgressionChart then (Round(side, operation, None, Some(Fer113), q == |lines|), Advance(lines, q))
      else
        var (result, after) := PideSpec(lines, q);
        if !result.Chosen? then (Round(side, operation, Some(result), None, result == OutOfInput), after)
        else
          var ran := if opc == GenerateLedger then Fer111 else Fer112;
          (Round(side, operation, Some(result), Some(ran), after == |lines|), Advance(lines, after))
  }

  /** Every pass obeys the rules of the loop. */
  lemma PlayRoundObeysLaw(side: Side, lines: seq<string>, p: nat)
    requires p <= |lines|
    ensures RoundLaw(PlayRound(side, lines, p).0)
  {
  }

  /** What a pass reads: the operation line, then the lines `pide` reads
      when it is consulted, then one line for the sub-program's pause when
      one runs; the input runs out in `pide` or at that pause. */
  lemma PlayRoundReads(side: Side, lines: seq<string>, p: nat)
    requires p <= |lines|
    ensures var (r, next) := PlayRound(side, lines, p);
      var q := Advance(lines, p);
      var pause := if r.prompt.Some? then PideSpec(lines, q).1 else q;
      (r.prompt.Some? ==> r.prompt.value == PideSpec(lines, q).0)
      && (next == if r.ran.Some? then Advance(lines, pause) else pause)
      && (r.eof <==> r.prompt == Some(OutOfInput) || (r.ran.Some? && pause == |lines|))
  {
  }

  /** A run of the module's loop: its passes, whether it ended by an
      uncaught end of input, and the first unread line. */
  datatype IvaRun = IvaRun(rounds: seq<Round>, aborted: bool, next: nat)

  /** The module's loop from pos on: it stops when the side selector gives
      None, or when the input runs out inside a pass. */
  function IvaSpec(lines: seq<string>, pos: nat): (r: IvaRun)
    requires pos <= |lines|
    ensures pos <= r.next <= |lines|
    ensures r.rounds == [] <==> SelectSide(LineAt(lines, pos)).None?
    ensures r.aborted ==> r.next == |lines|
    decreases |lines| - pos
  {
    match SelectSide(LineAt(lines, pos))
    case None => IvaRun([], false, Advance(lines, pos))
    case Some(side) =>
      var (round, after) := PlayRound(side, lines, pos + 1);
      if round.eof then IvaRun([round], true, after)
      else
        var rest := IvaSpec(lines, after);
        IvaRun([round] + rest.rounds, rest.aborted, rest.next)
  }

  /** The shape of a whole run: every pass obeys the rules, the input runs
      out in no pass but possibly the last, and the run is aborted exactly
      when it ran out there. */
  predicate WellRun(r: IvaRun) {
    (forall i :: 0 <= i < |r.rounds| ==> RoundLaw(r.rounds[i]))
    && (forall i :: 0 <= i < |r.rounds| - 1 ==> !r.rounds[i].eof)
    && (r.aborted <==> r.rounds != [] && r.rounds[|r.rounds| - 1].eof)
  }

  /** A pass in which the input did not run out, followed by a well-shaped
      run, is a well-shaped run. */
  lemma WellRunCons(round: Round, rest: IvaRun)
    requires RoundLaw(round) && !round.eof && WellRun(rest)
    ensures WellRun(IvaRun([round] + rest.rounds, rest.aborted, rest.next))
  {
    var all := [round] + rest.rounds;
    forall i | 0 <= i < |all|
      ensures RoundLaw(all[i]) && (i < |all| - 1 ==> !all[i].eof)
    {
      if i > 0 {
        assert all[i] == rest.rounds[i - 1];
      }
    }
    assert rest.rounds != [] ==> all[|all| - 1] == rest.rounds[|rest.rounds| - 1];
  }

  /** A pass, named, with the rules it obeys. */
  lemma LawfulRound(side: Side, lines: seq<string>, p: nat) returns (round: Round, after: nat)
    requires p <= |lines|
    ensures (round, after) == PlayRound(side, lines, p) && RoundLaw(round)
  {
    round, after := PlayRound(side, lines, p).0, PlayRound(side, lines, p).1;
    PlayRoundObeysLaw(side, lines, p);
  }

  /** The loop, when a side was selected, is its first pass followed by
      the rest of the loop unless the input ran out in that pass. */
  lemma IvaSpecFirstRound(lines: seq<string>, pos: nat, round: Round, after: nat)
    requires pos <= |lines| && SelectSide(LineAt(lines, pos)).Some?
    requires (round, after) == PlayRound(SelectSide(LineAt(lines, pos)).value, lines, pos + 1)
    ensures pos < after <= |lines|
    ensures round.eof ==> IvaSpec(lines, pos) == IvaRun([round], true, after)
    ensures !round.eof ==> IvaSpec(lines, pos) == IvaRun([round] + IvaSpec(lines, after).rounds,
                                                          IvaSpec(lines, after).aborted, IvaSpec(lines, after).next)
  {
  }

  lemma {:induction false} IvaSpecWellRun(lines: seq<string>, pos: nat)
    requires pos <= |lines|
    ensures WellRun(IvaSpec(lines, pos))
    decreases |lines| - pos
  {
    if SelectSide(LineAt(lines, pos)).Some? {
      var round, after := LawfulRound(SelectSide(LineAt(lines, pos)).value, lines, pos + 1);
      IvaSpecFirstRound(lines, pos, round, after);
      if !round.eof {
        IvaSpecWellRun(lines, after);
        WellRunCons(round, IvaSpec(lines, after));
      }
    }
  }

  /** Side 1 then operation 3 runs the progression chart for sales at once,
      without asking for a month and year; its pause reads the next line. */
  lemma SalesChartScenario(rest: seq<string>)
    ensures |IvaSpec(["1", "3"] + rest, 0).rounds| > 0
    ensures IvaSpec(["1", "3"] + rest, 0).rounds[0] == Round(Sales, Some(ProgressionChart), None, Some(Fer113), rest == [])
  {
    ReadsAs(1);
    ReadsAs(3);
    var lines := ["1", "3"] + rest;
    assert lines[0] == "1" && lines[1] == "3";
  }

  /** The body of `main`'s loop once a side is chosen: the operation
      menu, then `pide` for options 1 and 2 or fer113 for option 3, and
      the sub-program's pause. */
  method PlayRoundOnce(side: Side, lines: seq<string>, p: nat) returns (round: Round, next: nat)
    requires p <= |lines|
    ensures (round, next) == PlayRound(side, lines, p)
  {
    var operation := SelectOperation(LineAt(lines, p));
    next := Advance(lines, p);
    if operation.None? {
      round := Round(side, None, None, None, false);
      return;
    }
    var prompt: Option<Prompt> := None;
    var ran: Option<Subprogram> := None;
    if operation.value == ProgressionChart {
      ran := Some(Fer113);
    } else {
      var result, after := Pide(lines, next);
      next := after;
      prompt := Some(result);
      if result.Chosen? {
        ran := if operation.value == GenerateLedger then Some(Fer111) else Some(Fer112);
      }
    }
    var eof := prompt == Some(OutOfInput);
    if ran.Some? {
      // the sub-program waits for Enter
      eof := next == |lines|;
      next := Advance(lines, next);
    }
    round := Round(side, operation, prompt, ran, eof);
  }

  /** `main` of the module: the loop itself, with `pide` as a method call. */
  method RunIva(lines: seq<string>, pos: nat) returns (rounds: seq<Round>, aborted: bool, next: nat)
    requires pos <= |lines|
    ensures IvaRun(rounds, aborted, next) == IvaSpec(lines, pos)
  {
    rounds, aborted, next := [], false, pos;
    while true
      invariant pos <= next <= |lines|
      invariant var rest := IvaSpec(lines, next);
        IvaSpec(lines, pos) == IvaRun(rounds + rest.rounds, rest.aborted, rest.next)
      decreases |lines| - next
    {
      ghost var start := next;
      var origin := SelectSide(LineAt(lines, next));
      if origin.None? {
        next := Advance(lines, next);
        assert rounds + [] == rounds;
        break;
      }
      var round;
      round, next := PlayRoundOnce(origin.value, lines, next + 1);
      ghost var done := rounds;
      rounds := rounds + [round];
      if round.eof {
        aborted := true;
        assert IvaSpec(lines, start) == IvaRun([round], true, next);
        return;
      }
      ghost var rest := IvaSpec(lines, next);
      assert IvaSpec(lines, start) == IvaRun([round] + rest.rounds, rest.aborted, rest.next);
      assert rounds + rest.rounds == done + ([round] + rest.rounds);
    }
  }
}
