/** The top-level menu of fer000.py: the session, the fixed table of menu
    entries, the hierarchy check on restricted modules with its audit
    record, the dispatcher `ejecutar_opcion` and the `main` loop. The audit
    records and the placeholder modules that run are traces kept by a
    MenuSystem object, which also holds the console input and the position
    of the next unread line; the console text itself is not modelled. */
module Menu {
  import opened Parsing

  /** `Sesion`: the state of the signed-in user. */
  class Session {
    var user: string
    var level: int      // jerarquia: 1 = low, 2 = medium, 3 = supervisor
    var store: string   // comercio
    var spool: string
    var detail: bool

    constructor ()
      ensures user == "" && level == 0 && store == "" && spool == "" && !detail
    {
      user, level, store, spool, detail := "", 0, "", "", false;
    }

    /** The fixed demonstration sign-in that `main` performs before its loop. */
    method DemoLogin()
      modifies this
      ensures user == "DEMO" && level == 3 && store == "Mi Comercio S.A."
      ensures spool == old(spool) && detail == old(detail)
    {
      user, level, store := "DEMO", 3, "Mi Comercio S.A.";
    }
  }

  /** One audit record: who tried, and what. The timestamp is not modelled. */
  datatype AuditRecord = AuditRecord(user: string, detail: string)

  /** A menu entry: its code, its caption, and the placeholder module it runs
      (None for the restricted entries and for the exit entry). */
  datatype Entry = Entry(code: int, caption: string, action: Option<string>)

  /** A restricted module: the program it runs and the text its audit record names. */
  datatype RestrictedModule = RestrictedModule(program: string, auditText: string)

  const ExitCode := 0
  const RequiredLevel := 3

  /** MENU_OPCIONES */
  const MenuOptions: seq<Entry> := [
    Entry(1, "Gestión de Clientes", Some("fer001 - Clientes")),
    Entry(2, "Gestión de Proveedores", Some("fer002 - Proveedores")),
    Entry(3, "Gestión de Vendedores", None),
    Entry(4, "Gestión de Depósitos", Some("fer030 - Depósitos")),
    Entry(5, "Gestión de Tarjetas", None),
    Entry(6, "Gestión de Artículos", Some("fer004 - Artículos")),
    Entry(7, "Control de Existencias", Some("fer005 - Existencias")),
    Entry(8, "Gestión de Compras", Some("fer006 - Compras")),
    Entry(9, "Gestión de Ventas", Some("fer007 - Ventas")),
    Entry(10, "Precios", Some("fer008 - Precios")),
    Entry(11, "Ofertas", Some("fer009 - Ofertas")),
    Entry(12, "Control de Caja", Some("fer100 - Caja")),
    Entry(13, "Listado Mayor de Cuentas", Some("may000 - Mayor")),
    Entry(14, "Liquidación de I.V.A.", None),
    Entry(15, "Estadísticas", Some("fer120 - Estadísticas")),
    Entry(16, "Auditorías de Operaciones", None),
    Entry(17, "Cuentas Corrientes", Some("fer140 - Ctas.Ctes.")),
    Entry(0, "Salir", None)
  ]

  /** MODULOS_RESTRINGIDOS */
  const Restricted: map<int, RestrictedModule> := map[
    3 := RestrictedModule("fer700 - Vendedores", "módulo de vendedores"),
    5 := RestrictedModule("fer003 - Tarjetas/Crédito", "módulo tarjetas/crédito"),
    14 := RestrictedModule("fer110 - IVA", "liquidaciones/IVA"),
    16 := RestrictedModule("fer130 - Auditorías", "auditorías/operaciones")
  ]

  /** The detail of the audit record written when access to a module is denied. */
  function DeniedDetail(moduleName: string): string {
    "Intento utilizar módulo: " + moduleName
  }

  /** The first entry of `entries` with the given code (`next(...)` over the table). */
  function FindEntry(entries: seq<Entry>, code: int): Option<Entry> {
    if entries == [] then None
    else if entries[0].code == code then Some(entries[0])
    else FindEntry(entries[1..], code)
  }

  /** The lookup finds an entry exactly when one carries the code, and then
      the first such entry. */
  lemma {:induction false} FindEntrySpec(entries: seq<Entry>, code: int)
    ensures var r := FindEntry(entries, code);
      (r.Some? <==> exists i :: 0 <= i < |entries| && entries[i].code == code)
      && (r.Some? ==> exists i :: 0 <= i < |entries| && entries[i] == r.value && r.value.code == code
                         && forall j :: 0 <= j < i ==> entries[j].code != code)
  {
    if entries != [] && entries[0].code != code {
      FindEntrySpec(entries[1..], code);
      assert forall i :: 0 <= i < |entries| - 1 ==> entries[1..][i] == entries[i + 1];
      var r := FindEntry(entries[1..], code);
      if r.Some? {
        var i :| 0 <= i < |entries| - 1 && entries[1..][i] == r.value && r.value.code == code
                 && forall j :: 0 <= j < i ==> entries[1..][j].code != code;
        assert entries[i + 1] == r.value;
        assert forall j :: 0 <= j < i + 1 ==> entries[j].code != code;
      }
      if exists i :: 0 <= i < |entries| && entries[i].code == code {
        var i :| 0 <= i < |entries| && entries[i].code == code;
        assert entries[1..][i - 1].code == code;
      }
    }
  }

  /** The lookup finds the first entry carrying the code. */
  lemma {:induction false} FindEntryFirst(entries: seq<Entry>, k: nat, code: int)
    requires k < |entries| && entries[k].code == code
    requires forall j :: 0 <= j < k ==> entries[j].code != code
    ensures FindEntry(entries, code) == Some(entries[k])
  {
    if k > 0 {
      FindEntryFirst(entries[1..], k - 1, code);
    }
  }

  /** The two tables the dispatcher consults. */
  datatype MenuTable = MenuTable(options: seq<Entry>, restricted: map<int, RestrictedModule>)

  const ErpMenu := MenuTable(MenuOptions, Restricted)

  /** The shape the dispatcher relies on: unique codes, an exit entry, and
      the non-exit entries without an action are exactly the restricted codes. */
  predicate WellFormed(menu: MenuTable) {
    var options := menu.options;
    (forall i, j :: 0 <= i < j < |options| ==> options[i].code != options[j].code)
    && (exists i :: 0 <= i < |options| && options[i].code == ExitCode)
    && (forall i :: 0 <= i < |options| && options[i].code != ExitCode ==>
          (options[i].action.None? <==> options[i].code in menu.restricted))
    && (forall code :: code in menu.restricted ==>
          code != ExitCode && exists i :: 0 <= i < |options| && options[i].code == code)
  }

  function Lookup(menu: MenuTable, code: int): Option<Entry> {
    FindEntry(menu.options, code)
  }

  /** Entry i of MENU_OPCIONES has code i + 1, except the last, which is the exit code. */
  lemma CodesByPosition()
    ensures forall i :: 0 <= i < |MenuOptions| ==>
              MenuOptions[i].code == if i < |MenuOptions| - 1 then i + 1 else ExitCode
  {
    forall i | 0 <= i < |MenuOptions|
      ensures MenuOptions[i].code == if i < |MenuOptions| - 1 then i + 1 else ExitCode
    {
    }
  }

  /** The entries without an action, besides the exit entry, are exactly
      the restricted ones. */
  lemma ActionsMatchRestricted()
    ensures forall i :: 0 <= i < |MenuOptions| && MenuOptions[i].code != ExitCode ==>
              (MenuOptions[i].action.None? <==> MenuOptions[i].code in Restricted)
  {
    assert Restricted.Keys == {3, 5, 14, 16};
    forall i | 0 <= i < |MenuOptions| && MenuOptions[i].code != ExitCode
      ensures MenuOptions[i].action.None? <==> MenuOptions[i].code in Restricted
    {
      CodesByPosition();
    }
  }

  /** MENU_OPCIONES and MODULOS_RESTRINGIDOS have that shape; the exit
      code is on the last entry only. */
  lemma ErpMenuWellFormed()
    ensures WellFormed(ErpMenu)
    ensures forall i :: 0 <= i < |MenuOptions| ==> (MenuOptions[i].code == ExitCode <==> i == |MenuOptions| - 1)
  {
    CodesByPosition();
    ActionsMatchRestricted();
    assert MenuOptions[|MenuOptions| - 1].code == ExitCode;
    forall code | code in Restricted
      ensures code != ExitCode && exists i :: 0 <= i < |MenuOptions| && MenuOptions[i].code == code
    {
      assert code in {3, 5, 14, 16};
      assert MenuOptions[code - 1].code == code;
    }
  }

  /** The position of a table code: code c sits at c - 1, the exit code last. */
  function IndexOf(code: int): (i: nat)
    requires 0 <= code <= 17
    ensures i < |MenuOptions|
  {
    if code == ExitCode then |MenuOptions| - 1 else code - 1
  }

  /** The menu's codes are 0..17 and each finds the entry at its position. */
  lemma LookupInTable(code: int)
    requires 0 <= code <= 17
    ensures Lookup(ErpMenu, code) == Some(MenuOptions[IndexOf(code)])
  {
    CodesByPosition();
    FindEntryFirst(MenuOptions, IndexOf(code), code);
  }

  /** No other code is in the menu. */
  lemma LookupOutsideTable(code: int)
    requires code < 0 || code > 17
    ensures Lookup(ErpMenu, code).None?
  {
    CodesByPosition();
    FindEntrySpec(MenuOptions, code);
  }

  /** What one call of `ejecutar_opcion` does: whether the menu loop goes on,
      the audit records written and the placeholder modules run, in order,
      and whether it then waits for Enter (reading one line). */
  datatype Effect = Effect(continues: bool, audit: seq<AuditRecord>, invoked: seq<string>, pauses: bool)

  /** `ejecutar_opcion(code)` for a session of the given level and user. */
  function Dispatch(menu: MenuTable, code: int, level: int, user: string): (e: Effect)
    ensures e.continues <==> code != ExitCode
    ensures |e.audit| + |e.invoked| <= 1
    ensures e.pauses <==> |e.audit| + |e.invoked| == 1
    ensures e.audit != [] ==> code in menu.restricted && level < RequiredLevel
  {
    if code == ExitCode then Effect(false, [], [], false)
    else match Lookup(menu, code)
      case None => Effect(true, [], [], false)
      case Some(entry) =>
        if code in menu.restricted then
          if level < RequiredLevel then
            Effect(true, [AuditRecord(user, DeniedDetail(menu.restricted[code].auditText))], [], true)
          else Effect(true, [], [menu.restricted[code].program], true)
        else if entry.action.Some? then Effect(true, [], [entry.action.value], true)
        else Effect(true, [], [], false)
  }

  /** Code 0 ends the loop, with no audit and no module run. */
  lemma DispatchExit(menu: MenuTable, level: int, user: string)
    ensures Dispatch(menu, ExitCode, level, user) == Effect(false, [], [], false)
  {
  }

  /** A code outside the table is reported and ignored: nothing runs, nothing is audited. */
  lemma DispatchUnknown(menu: MenuTable, code: int, level: int, user: string)
    requires WellFormed(menu) && Lookup(menu, code).None?
    ensures Dispatch(menu, code, level, user) == Effect(true, [], [], false)
  {
    FindEntrySpec(menu.options, code);
  }

  /** A restricted code below the required level runs nothing and writes
      exactly one audit record, naming that module. */
  lemma DispatchDenied(menu: MenuTable, code: int, level: int, user: string)
    requires WellFormed(menu) && code in menu.restricted && level < RequiredLevel
    ensures Dispatch(menu, code, level, user)
         == Effect(true, [AuditRecord(user, DeniedDetail(menu.restricted[code].auditText))], [], true)
  {
    FindEntrySpec(menu.options, code);
  }

  /** A restricted code at or above the required level runs exactly the
      module named for it, with no audit record. */
  lemma DispatchGranted(menu: MenuTable, code: int, level: int, user: string)
    requires WellFormed(menu) && code in menu.restricted && level >= RequiredLevel
    ensures Dispatch(menu, code, level, user) == Effect(true, [], [menu.restricted[code].program], true)
  {
    FindEntrySpec(menu.options, code);
  }

  /** An unrestricted code in the table runs exactly the module bound in its
      entry, with no audit record, whatever the level. */
  lemma DispatchFree(menu: MenuTable, code: int, level: int, user: string)
    requires WellFormed(menu) && code != ExitCode && code !in menu.restricted && Lookup(menu, code).Some?
    ensures Lookup(menu, code).value.action.Some?
    ensures Dispatch(menu, code, level, user) == Effect(true, [], [Lookup(menu, code).value.action.value], true)
  {
    FindEntrySpec(menu.options, code);
    var i :| 0 <= i < |menu.options| && menu.options[i] == Lookup(menu, code).value
             && Lookup(menu, code).value.code == code
             && forall j :: 0 <= j < i ==> menu.options[j].code != code;
  }

  /** An audit record written for a denied attempt by this user at this level. */
  predicate IsDenial(menu: MenuTable, level: int, user: string, rec: AuditRecord) {
    level < RequiredLevel && rec.user == user
    && exists code :: code in menu.restricted && rec.detail == DeniedDetail(menu.restricted[code].auditText)
  }

  predicate AllDenials(menu: MenuTable, level: int, user: string, audit: seq<AuditRecord>) {
    forall k :: 0 <= k < |audit| ==> IsDenial(menu, level, user, audit[k])
  }

  /** The action bound in an unrestricted entry of the table. */
  predicate IsFreeAction(menu: MenuTable, name: string) {
    exists i :: 0 <= i < |menu.options| && menu.options[i].action == Some(name)
                && menu.options[i].code !in menu.restricted
  }

  predicate AllFree(menu: MenuTable, invoked: seq<string>) {
    forall k :: 0 <= k < |invoked| ==> IsFreeAction(menu, invoked[k])
  }

  /** Every audit record a dispatch writes is a denial. */
  lemma DispatchAuditsOnlyDenials(menu: MenuTable, code: int, level: int, user: string)
    ensures AllDenials(menu, level, user, Dispatch(menu, code, level, user).audit)
  {
    var e := Dispatch(menu, code, level, user);
    if e.audit != [] {
      assert e.audit == [AuditRecord(user, DeniedDetail(menu.restricted[code].auditText))];
      assert IsDenial(menu, level, user, e.audit[0]);
    }
  }

  /** Below the required level only unrestricted modules run: whatever a
      dispatch runs is the action bound in an unrestricted table entry. */
  lemma DispatchBelowLevelRunsOnlyFree(menu: MenuTable, code: int, level: int, user: string)
    requires level < RequiredLevel
    ensures AllFree(menu, Dispatch(menu, code, level, user).invoked)
  {
    var e := Dispatch(menu, code, level, user);
    if e.invoked != [] {
      FindEntrySpec(menu.options, code);
      var entry := Lookup(menu, code).value;
      var i :| 0 <= i < |menu.options| && menu.options[i] == entry && entry.code == code
               && forall j :: 0 <= j < i ==> menu.options[j].code != code;
      assert e.invoked == [entry.action.value];
      assert IsFreeAction(menu, e.invoked[0]);
    }
  }

  /** A supervisor choosing 14 runs the IVA program stub, with no audit record. */
  lemma DispatchExampleGranted(user: string)
    ensures Dispatch(ErpMenu, 14, 3, user) == Effect(true, [], ["fer110 - IVA"], true)
  {
    LookupInTable(14);
  }

  /** A level-1 user choosing 3 runs nothing and gets one audit record about
      the salesmen module. */
  lemma DispatchExampleDenied(user: string)
    ensures Dispatch(ErpMenu, 3, 1, user)
         == Effect(true, [AuditRecord(user, DeniedDetail("módulo de vendedores"))], [], true)
  {
    LookupInTable(3);
  }

  // ---------------------------------------------------------------------
  // The main loop
  // ---------------------------------------------------------------------

  /** How the menu loop ends: on the exit code; with the input exhausted at
      the menu's own prompt; or with the input exhausted at a pause, an
      EOFError that nothing catches. */
  datatype Outcome = Exited | EndOfInput | Interrupted

  /** What the menu loop does with the input from pos on: how it ended, the
      audit records and modules of every dispatch, and the first line it
      did not read. */
  datatype MenuRun = MenuRun(outcome: Outcome, audit: seq<AuditRecord>, invoked: seq<string>, next: nat)

  /** The position after a dispatch read at pos: past the option line, and
      past the pause line when the dispatch waits for Enter. */
  function Resume(e: Effect, pos: nat): nat {
    if e.pauses then pos + 2 else pos + 1
  }

  /** The menu loop: a line that is not an integer re-shows the menu; an
      integer is dispatched; the loop stops after code 0, at a pause that
      finds no line, or at the end of the input (where the source loops
      forever, see MenuAsWritten). */
  function MenuSpec(menu: MenuTable, lines: seq<string>, pos: nat, level: int, user: string): (r: MenuRun)
    requires pos <= |lines|
    ensures pos <= r.next <= |lines|
    ensures r.outcome != Exited ==> r.next == |lines|
    ensures r.outcome == Exited ==> pos < r.next && ParseInt(lines[r.next - 1]) == Some(ExitCode)
    decreases |lines| - pos
  {
    if pos == |lines| then MenuRun(EndOfInput, [], [], pos)
    else match ParseInt(lines[pos])
      case None => MenuSpec(menu, lines, pos + 1, level, user)
      case Some(code) =>
        var e := Dispatch(menu, code, level, user);
        if !e.continues then MenuRun(Exited, e.audit, e.invoked, pos + 1)
        else if e.pauses && pos + 1 == |lines| then MenuRun(Interrupted, e.audit, e.invoked, pos + 1)
        else
          var rest := MenuSpec(menu, lines, Resume(e, pos), level, user);
          MenuRun(rest.outcome, e.audit + rest.audit, e.invoked + rest.invoked, rest.next)
  }

  /** The loop ends on the exit code only if some line holds it. */
  lemma {:induction false} MenuExitsOnlyOnZero(menu: MenuTable, lines: seq<string>, pos: nat, level: int, user: string)
    requires pos <= |lines| && MenuSpec(menu, lines, pos, level, user).outcome == Exited
    ensures exists i :: pos <= i < |lines| && ParseInt(lines[i]) == Some(ExitCode)
  {
    var r := MenuSpec(menu, lines, pos, level, user);
    assert ParseInt(lines[r.next - 1]) == Some(ExitCode);
  }

  /** An option line holding the exit code ends the loop at once. */
  lemma MenuExitsOnZeroLine(menu: MenuTable, lines: seq<string>, pos: nat, level: int, user: string)
    requires pos < |lines| && ParseInt(lines[pos]) == Some(ExitCode)
    ensures MenuSpec(menu, lines, pos, level, user) == MenuRun(Exited, [], [], pos + 1)
  {
  }

  /** A line that is not an integer changes nothing: the loop goes on with the next line. */
  lemma MenuSkipsNonInteger(menu: MenuTable, lines: seq<string>, pos: nat, level: int, user: string)
    requires pos < |lines| && ParseInt(lines[pos]).None?
    ensures MenuSpec(menu, lines, pos, level, user) == MenuSpec(menu, lines, pos + 1, level, user)
  {
  }

  /** An option line "0" preceded by the separator 0x1C is not the exit
      code: bare `int()` refuses it and the menu is shown again. */
  lemma MenuSkipsSeparatedZero(menu: MenuTable, level: int, user: string)
    ensures MenuSpec(menu, [[28 as char, '0']], 0, level, user) == MenuRun(EndOfInput, [], [], 1)
  {
    var line := [28 as char, '0'];
    assert line[1..] == ['0'];
    assert Step(IntSpacing, Lead, line[0]) == Junk;
    RunJunk(IntSpacing, line[1..]);
  }

  /** The line after a dispatch that pauses is consumed by the pause: it is
      never read as an option, even when it holds the exit code. */
  lemma MenuPauseSkipsLine(menu: MenuTable, lines: seq<string>, pos: nat, level: int, user: string)
    requires pos + 1 < |lines| && ParseInt(lines[pos]).Some?
    requires var e := Dispatch(menu, ParseInt(lines[pos]).value, level, user); e.continues && e.pauses
    ensures var e := Dispatch(menu, ParseInt(lines[pos]).value, level, user);
      var rest := MenuSpec(menu, lines, pos + 2, level, user);
      MenuSpec(menu, lines, pos, level, user) == MenuRun(rest.outcome, e.audit + rest.audit, e.invoked + rest.invoked, rest.next)
  {
  }

  /** A supervisor's session never writes an audit record. */
  lemma {:induction false} SupervisorNeverAudited(menu: MenuTable, lines: seq<string>, pos: nat, level: int, user: string)
    requires pos <= |lines| && level >= RequiredLevel
    ensures MenuSpec(menu, lines, pos, level, user).audit == []
    decreases |lines| - pos
  {
    if pos < |lines| {
      match ParseInt(lines[pos])
      case None =>
        SupervisorNeverAudited(menu, lines, pos + 1, level, user);
      case Some(code) =>
        var e := Dispatch(menu, code, level, user);
        if e.continues && !(e.pauses && pos + 1 == |lines|) {
          SupervisorNeverAudited(menu, lines, Resume(e, pos), level, user);
        }
    }
  }

  lemma AllDenialsAppend(menu: MenuTable, level: int, user: string, a: seq<AuditRecord>, b: seq<AuditRecord>)
    requires AllDenials(menu, level, user, a) && AllDenials(menu, level, user, b)
    ensures AllDenials(menu, level, user, a + b)
  {
    forall k | 0 <= k < |a + b| ensures IsDenial(menu, level, user, (a + b)[k]) {
      if k >= |a| {
        assert (a + b)[k] == b[k - |a|];
      }
    }
  }

  lemma AllFreeAppend(menu: MenuTable, a: seq<string>, b: seq<string>)
    requires AllFree(menu, a) && AllFree(menu, b)
    ensures AllFree(menu, a + b)
  {
    forall k | 0 <= k < |a + b| ensures IsFreeAction(menu, (a + b)[k]) {
      if k >= |a| {
        assert (a + b)[k] == b[k - |a|];
      }
    }
  }

  /** Every audit record of a session names its user and one restricted
      module, and is only written below the required level. */
  lemma {:induction false} AuditRecordsAreDenials(menu: MenuTable, lines: seq<string>, pos: nat, level: int, user: string)
    requires pos <= |lines|
    ensures AllDenials(menu, level, user, MenuSpec(menu, lines, pos, level, user).audit)
    decreases |lines| - pos
  {
    if pos < |lines| {
      match ParseInt(lines[pos])
      case None =>
        AuditRecordsAreDenials(menu, lines, pos + 1, level, user);
      case Some(code) =>
        var e := Dispatch(menu, code, level, user);
        DispatchAuditsOnlyDenials(menu, code, level, user);
        if e.continues && !(e.pauses && pos + 1 == |lines|) {
          AuditRecordsAreDenials(menu, lines, Resume(e, pos), level, user);
          AllDenialsAppend(menu, level, user, e.audit, MenuSpec(menu, lines, Resume(e, pos), level, user).audit);
        }
    }
  }

  /** Below the required level no restricted program ever runs in a session:
      every module run is the action of an unrestricted entry. */
  lemma {:induction false} BelowLevelRunsOnlyFree(menu: MenuTable, lines: seq<string>, pos: nat, level: int, user: string)
    requires pos <= |lines| && level < RequiredLevel
    ensures AllFree(menu, MenuSpec(menu, lines, pos, level, user).invoked)
    decreases |lines| - pos
  {
    if pos < |lines| {
      match ParseInt(lines[pos])
      case None =>
        BelowLevelRunsOnlyFree(menu, lines, pos + 1, level, user);
      case Some(code) =>
        var e := Dispatch(menu, code, level, user);
        DispatchBelowLevelRunsOnlyFree(menu, code, level, user);
        if e.continues && !(e.pauses && pos + 1 == |lines|) {
          BelowLevelRunsOnlyFree(menu, lines, Resume(e, pos), level, user);
          AllFreeAppend(menu, e.invoked, MenuSpec(menu, lines, Resume(e, pos), level, user).invoked);
        }
    }
  }

  /** The `main` loop as written: on end of input `int(input())` raises
      EOFError, which is caught by `continue`, so the menu is shown again
      forever. Runs at most `fuel` passes; None means still running. */
  function MenuAsWritten(menu: MenuTable, lines: seq<string>, pos: nat, level: int, user: string, fuel: nat): Option<MenuRun>
    requires pos <= |lines|
    decreases fuel
  {
    if fuel == 0 then None
    else if pos == |lines| then MenuAsWritten(menu, lines, pos, level, user, fuel - 1)
    else match ParseInt(lines[pos])
      case None => MenuAsWritten(menu, lines, pos + 1, level, user, fuel - 1)
      case Some(code) =>
        var e := Dispatch(menu, code, level, user);
        if !e.continues then Some(MenuRun(Exited, e.audit, e.invoked, pos + 1))
        else if e.pauses && pos + 1 == |lines| then Some(MenuRun(Interrupted, e.audit, e.invoked, pos + 1))
        else match MenuAsWritten(menu, lines, Resume(e, pos), level, user, fuel - 1)
          case None => None
          case Some(rest) => Some(MenuRun(rest.outcome, e.audit + rest.audit, e.invoked + rest.invoked, rest.next))
  }

  /** Once the input is exhausted the loop as written never finishes, however
      many passes it is given. */
  lemma {:induction false} AsWrittenSpinsAtEndOfInput(menu: MenuTable, lines: seq<string>, level: int, user: string, fuel: nat)
    ensures MenuAsWritten(menu, lines, |lines|, level, user, fuel).None?
    decreases fuel
  {
    if fuel > 0 {
      AsWrittenSpinsAtEndOfInput(menu, lines, level, user, fuel - 1);
    }
  }

  /** Wherever the corrected loop stops at the end of the input, the loop
      as written never finishes. */
  lemma {:induction false} AsWrittenNeverEndsAtEndOfInput(menu: MenuTable, lines: seq<string>, pos: nat, level: int, user: string, fuel: nat)
    requires pos <= |lines| && MenuSpec(menu, lines, pos, level, user).outcome == EndOfInput
    ensures MenuAsWritten(menu, lines, pos, level, user, fuel).None?
    decreases fuel
  {
    if fuel > 0 {
      if pos == |lines| {
        AsWrittenSpinsAtEndOfInput(menu, lines, level, user, fuel - 1);
      } else {
        match ParseInt(lines[pos])
        case None =>
          AsWrittenNeverEndsAtEndOfInput(menu, lines, pos + 1, level, user, fuel - 1);
        case Some(code) =>
          var e := Dispatch(menu, code, level, user);
          AsWrittenNeverEndsAtEndOfInput(menu, lines, Resume(e, pos), level, user, fuel - 1);
      }
    }
  }

  /** The smallest case: a closed console (no input at all). */
  lemma AsWrittenNeverEndsOnEmptyInput(menu: MenuTable, level: int, user: string, fuel: nat)
    ensures MenuSpec(menu, [], 0, level, user) == MenuRun(EndOfInput, [], [], 0)
    ensures MenuAsWritten(menu, [], 0, level, user, fuel).None?
  {
    AsWrittenSpinsAtEndOfInput(menu, [], level, user, fuel);
  }

  /** Where the loop as written does end (on the exit code, or at a pause
      that finds no line), the corrected loop ends the same way, with the
      same audit records and modules. */
  lemma {:induction false} CorrectedAgreesWhereAsWrittenEnds(menu: MenuTable, lines: seq<string>, pos: nat, level: int, user: string, fuel: nat)
    requires pos <= |lines|
    requires MenuAsWritten(menu, lines, pos, level, user, fuel).Some?
    ensures MenuAsWritten(menu, lines, pos, level, user, fuel) == Some(MenuSpec(menu, lines, pos, level, user))
    ensures MenuSpec(menu, lines, pos, level, user).outcome != EndOfInput
    decreases fuel
  {
    if pos == |lines| {
      AsWrittenSpinsAtEndOfInput(menu, lines, level, user, fuel);
    } else {
      match ParseInt(lines[pos])
      case None =>
        CorrectedAgreesWhereAsWrittenEnds(menu, lines, pos + 1, level, user, fuel - 1);
      case Some(code) =>
        var e := Dispatch(menu, code, level, user);
        if e.continues && !(e.pauses && pos + 1 == |lines|) {
          CorrectedAgreesWhereAsWrittenEnds(menu, lines, Resume(e, pos), level, user, fuel - 1);
        }
    }
  }

  /** Conversely, wherever the corrected loop stops before the input runs
      out, the loop as written, given more passes than lines remain, ends
      the same way with the same audit records and modules. */
  lemma {:induction false} AsWrittenEndsWhereCorrectedStops(menu: MenuTable, lines: seq<string>, pos: nat, level: int, user: string, fuel: nat)
    requires pos <= |lines| && fuel > |lines| - pos
    requires MenuSpec(menu, lines, pos, level, user).outcome != EndOfInput
    ensures MenuAsWritten(menu, lines, pos, level, user, fuel) == Some(MenuSpec(menu, lines, pos, level, user))
    decreases |lines| - pos
  {
    if pos < |lines| {
      match ParseInt(lines[pos])
      case None =>
        AsWrittenEndsWhereCorrectedStops(menu, lines, pos + 1, level, user, fuel - 1);
      case Some(code) =>
        var e := Dispatch(menu, code, level, user);
        if e.continues && !(e.pauses && pos + 1 == |lines|) {
          AsWrittenEndsWhereCorrectedStops(menu, lines, Resume(e, pos), level, user, fuel - 1);
        }
    }
  }

  /** A run that starts with a dispatch's traces and goes on as `rest`,
      after the traces `doneAudit` and `doneInvoked`, is the run that goes
      on as `rest` after the longer traces. */
  lemma ComposeRuns(whole: MenuRun, doneAudit: seq<AuditRecord>, doneInvoked: seq<string>, here: MenuRun,
                    audit: seq<AuditRecord>, invoked: seq<string>, rest: MenuRun)
    requires whole == MenuRun(here.outcome, doneAudit + here.audit, doneInvoked + here.invoked, here.next)
    requires here == MenuRun(rest.outcome, audit + rest.audit, invoked + rest.invoked, rest.next)
    ensures whole == MenuRun(rest.outcome, (doneAudit + audit) + rest.audit, (doneInvoked + invoked) + rest.invoked, rest.next)
  {
    assert (doneAudit + audit) + rest.audit == doneAudit + (audit + rest.audit);
    assert (doneInvoked + invoked) + rest.invoked == doneInvoked + (invoked + rest.invoked);
  }

  lemma ConcatAssoc<T>(a: seq<T>, b: seq<T>, c: seq<T>)
    ensures (a + b) + c == a + (b + c)
  {
  }

  lemma ConcatEmpty<T>(a: seq<T>)
    ensures a + [] == a
  {
  }

  lemma NothingDone(r: MenuRun)
    ensures r == MenuRun(r.outcome, [] + r.audit, [] + r.invoked, r.next)
  {
    assert [] + r.audit == r.audit && [] + r.invoked == r.invoked;
  }

  /** The menu system: the session it reads, the menu tables, the console
      input with the position of the next unread line, the audit records
      written so far and the placeholder modules run so far (`stub_modulo`
      calls). */
  class MenuSystem {
    const session: Session
    const menu: MenuTable
    const input: seq<string>
    var cursor: nat
    var audit: seq<AuditRecord>
    var invoked: seq<string>

    predicate Valid()
      reads this`cursor
    {
      cursor <= |input|
    }

    constructor (session: Session, input: seq<string>)
      ensures this.session == session && menu == ErpMenu && this.input == input
      ensures cursor == 0 && audit == [] && invoked == [] && Valid()
    {
      this.session := session;
      menu := ErpMenu;
      this.input := input;
      cursor := 0;
      audit, invoked := [], [];
    }

    /** `input("  Presione Enter para continuar...")`: one line is read and
        ignored; eof when there is none (EOFError). */
    method Pause() returns (eof: bool)
      requires Valid()
      modifies this`cursor
      ensures Valid()
      ensures eof <==> old(cursor) == |input|
      ensures cursor == Advance(input, old(cursor))
    {
      eof := cursor == |input|;
      if !eof {
        cursor := cursor + 1;
      }
    }

    /** `registrar_auditoria`: one audit record for the session's user. */
    method RecordAudit(detail: string)
      modifies this`audit
      ensures audit == old(audit) + [AuditRecord(session.user, detail)]
    {
      audit := audit + [AuditRecord(session.user, detail)];
    }

    /** `stub_modulo`: the placeholder module with that name runs, then waits for Enter. */
    method RunStub(name: string) returns (eof: bool)
      requires Valid()
      modifies this`invoked, this`cursor
      ensures Valid()
      ensures invoked == old(invoked) + [name]
      ensures eof <==> old(cursor) == |input|
      ensures cursor == Advance(input, old(cursor))
    {
      invoked := invoked + [name];
      eof := Pause();
    }

    /** `acceso_autorizado`: true exactly when the session's level reaches
        minLevel; when not, exactly one audit record names the module and
        the refusal waits for Enter. */
    method AccessAuthorized(minLevel: int, moduleName: string) returns (ok: bool, eof: bool)
      requires Valid()
      modifies this`audit, this`cursor
      ensures Valid()
      ensures ok <==> session.level >= minLevel
      ensures audit == old(audit) + if ok then [] else [AuditRecord(session.user, DeniedDetail(moduleName))]
      ensures eof <==> !ok && old(cursor) == |input|
      ensures cursor == if ok then old(cursor) else Advance(input, old(cursor))
    {
      if session.level < minLevel {
        RecordAudit(DeniedDetail(moduleName));
        eof := Pause();
        return false, eof;
      }
      return true, false;
    }

    /** `ejecutar_opcion`: dispatch one code; false means leave the menu;
        eof means a pause found no line, and the EOFError escapes. The
        session is only read. */
    method ExecuteOption(code: int) returns (continues: bool, eof: bool)
      requires Valid()
      modifies this`audit, this`invoked, this`cursor
      ensures Valid()
      ensures var e := Dispatch(menu, code, session.level, session.user);
        continues == e.continues && audit == old(audit) + e.audit && invoked == old(invoked) + e.invoked
        && (eof <==> e.pauses && old(cursor) == |input|)
        && cursor == if e.pauses then Advance(input, old(cursor)) else old(cursor)
      ensures session.user == old(session.user) && session.level == old(session.level)
    {
      if code == ExitCode {
        return false, false;
      }
      var entry := Lookup(menu, code);
      if entry.None? {
        return true, false;
      }
      if code in menu.restricted {
        var restricted := menu.restricted[code];
        var ok;
        ok, eof := AccessAuthorized(RequiredLevel, restricted.auditText);
        if !ok {
          return true, eof;
        }
        eof := RunStub(restricted.program);
        return true, eof;
      }
      eof := false;
      if entry.value.action.Some? {
        eof := RunStub(entry.value.action.value);
      }
      return true, eof;
    }

    /** One pass of `main`'s loop: read the option line and dispatch it
        when it holds an integer. `stop` is how the loop ends when it ends
        in this pass; passAudit and passInvoked are what the pass adds to
        the traces. */
    method Pass() returns (stop: Option<Outcome>, ghost passAudit: seq<AuditRecord>, ghost passInvoked: seq<string>)
      requires Valid() && cursor < |input|
      modifies this`audit, this`invoked, this`cursor
      ensures Valid() && old(cursor) < cursor
      ensures session.user == old(session.user) && session.level == old(session.level)
      ensures audit == old(audit) + passAudit && invoked == old(invoked) + passInvoked
      ensures var here := MenuSpec(menu, input, old(cursor), session.level, session.user);
        var rest := MenuSpec(menu, input, cursor, session.level, session.user);
        here == if stop.Some? then MenuRun(stop.value, passAudit, passInvoked, cursor)
                else MenuRun(rest.outcome, passAudit + rest.audit, passInvoked + rest.invoked, rest.next)
    {
      var opc := ParseInt(input[cursor]);
      cursor := cursor + 1;
      if opc.None? {
        NothingDone(MenuSpec(menu, input, cursor, session.level, session.user));
        return None, [], [];
      }
      passAudit := Dispatch(menu, opc.value, session.level, session.user).audit;
      passInvoked := Dispatch(menu, opc.value, session.level, session.user).invoked;
      var continues, eof := ExecuteOption(opc.value);
      if eof {
        return Some(Interrupted), passAudit, passInvoked;
      }
      if !continues {
        return Some(Exited), passAudit, passInvoked;
      }
      return None, passAudit, passInvoked;
    }

    /** `main`'s loop over the input lines, after sign-in: re-show the menu
        on a line that is not an integer, dispatch an integer, stop after
        the exit code, at a pause that finds no line, or at the end of the
        input. */
    method Run() returns (outcome: Outcome)
      requires Valid()
      modifies this`audit, this`invoked, this`cursor
      ensures Valid()
      ensures var r := MenuSpec(menu, input, old(cursor), session.level, session.user);
        outcome == r.outcome && cursor == r.next
        && audit == old(audit) + r.audit && invoked == old(invoked) + r.invoked
      ensures session.user == old(session.user) && session.level == old(session.level)
    {
      var level, user := session.level, session.user;
      ghost var whole := MenuSpec(menu, input, cursor, level, user);
      ghost var doneAudit: seq<AuditRecord> := [];
      ghost var doneInvoked: seq<string> := [];
      NothingDone(whole);
      while true
        invariant Valid()
        invariant session.level == level && session.user == user
        invariant audit == old(audit) + doneAudit && invoked == old(invoked) + doneInvoked
        invariant var here := MenuSpec(menu, input, cursor, level, user);
          whole == MenuRun(here.outcome, doneAudit + here.audit, doneInvoked + here.invoked, here.next)
        decreases |input| - cursor
      {
        ghost var here := MenuSpec(menu, input, cursor, level, user);
        if cursor == |input| {
          ConcatEmpty(doneAudit);
          ConcatEmpty(doneInvoked);
          return EndOfInput;
        }
        var stop, passAudit, passInvoked := Pass();
        ConcatAssoc(old(audit), doneAudit, passAudit);
        ConcatAssoc(old(invoked), doneInvoked, passInvoked);
        if stop.Some? {
          return stop.value;
        }
        ghost var rest := MenuSpec(menu, input, cursor, level, user);
        ComposeRuns(whole, doneAudit, doneInvoked, here, passAudit, passInvoked, rest);
        doneAudit, doneInvoked := doneAudit + passAudit, doneInvoked + passInvoked;
      }
    }
  }

  /** `main`: the demonstration sign-in (user DEMO at supervisor level),
      then the menu loop over the given console input. A supervisor's
      session writes no audit record. */
  method ErpMain(lines: seq<string>) returns (outcome: Outcome, audit: seq<AuditRecord>, invoked: seq<string>)
    ensures var r := MenuSpec(ErpMenu, lines, 0, RequiredLevel, "DEMO");
      outcome == r.outcome && audit == r.audit && invoked == r.invoked
    ensures audit == []
  {
    var session := new Session();
    session.DemoLogin();
    var system := new MenuSystem(session, lines);
    outcome := system.Run();
    audit, invoked := system.audit, system.invoked;
    SupervisorNeverAudited(ErpMenu, lines, 0, RequiredLevel, "DEMO");
  }
}
