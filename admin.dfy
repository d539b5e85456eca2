/** The administration listing (src/pages/Page6.tsx): a login guarded by a
    fixed user and password, a paged listing of the stored rows of one day,
    and the export of the listed page as comma-separated values. */
module Admin {
  import opened Wrappers
  import opened Text
  import opened Csv
  import Selection
  import Db
  import Storage

  // ------------------------------------------------------------ the rows

  /** A stored row, with the columns the listing shows; `None` stands for
      null, and `codigo` is never null. The overtime hours are a number
      that may have a fraction; the row holds the decimal text `String`
      gives for it. */
  datatype Row = Row(
    fecha: Option<string>,
    tipo: Option<Selection.Tipo>,
    unidad: Option<string>,
    caseta: Option<string>,
    componenteNombre: Option<string>,
    componenteApellidos: Option<string>,
    componenteNumero: Option<string>,
    codigo: string,
    jornadaIni: Option<string>,
    jornadaFin: Option<string>,
    horasExtra: Option<string>)

  /** `unidadOCaseta(r)`: the centre named by the row's type. */
  function UnidadOCaseta(r: Row): (s: string)
    ensures r.tipo == Some(Selection.Unidad) ==> s == r.unidad.GetOr("")
    ensures r.tipo == Some(Selection.Caseta) ==> s == r.caseta.GetOr("")
    ensures r.tipo.None? ==> s == ""
  {
    match r.tipo
    case Some(Unidad) => r.unidad.GetOr("")
    case Some(Caseta) => r.caseta.GetOr("")
    case None => ""
  }

  /** A stored row whose context came from a selection, with any other
      columns. */
  function RowWithContext(ctx: Db.RowContext, r: Row): Row {
    r.(tipo := Some(ctx.tipo), unidad := ctx.unidad, caseta := ctx.caseta, fecha := ctx.fecha)
  }

  /** The listing shows, as the centre of a row written with a selection's
      context, the centre the selection chose. */
  lemma CentreOfSelectionRow(sel: Selection.CurrentSelection, r: Row)
    ensures UnidadOCaseta(RowWithContext(Db.SelectionToContext(sel), r)) == sel.seleccion
  {
  }

  // ------------------------------------------------------------ export

  const Headers := ["fecha", "unidad_caseta", "componente_nombre", "componente_apellidos",
                    "componente_numero", "codigo", "jornada_ini", "jornada_fin", "horas_extra"]

  /** The nine values of a row, in the order of the headers. */
  function Fields(r: Row): (f: seq<string>)
    ensures |f| == |Headers| == 9
    ensures f[1] == UnidadOCaseta(r)
  {
    [r.fecha.GetOr(""), UnidadOCaseta(r), r.componenteNombre.GetOr(""), r.componenteApellidos.GetOr(""),
     r.componenteNumero.GetOr(""), r.codigo, r.jornadaIni.GetOr(""), r.jornadaFin.GetOr(""),
     r.horasExtra.GetOr("")]
  }

  /** One line per row: each value quoted, joined by commas. */
  function Line(r: Row): string {
    Join(QuoteAll(Fields(r)), ",")
  }

  /** The lines of the export: the header line, then one line per row. */
  function Lines(rows: seq<Row>): (ls: seq<string>)
    ensures |ls| == |rows| + 1
  {
    [Join(Headers, ",")] + seq(|rows|, k requires 0 <= k < |rows| => Line(rows[k]))
  }

  /** `exportCsv`'s text: the lines joined by line feeds. */
  function Export(rows: seq<Row>): (r: string)
    ensures IsPrefix(Join(Headers, ","), r)
  {
    JoinPrefix(Lines(rows), "\n");
    Join(Lines(rows), "\n")
  }

  /** What the export holds: the headers, then each row's nine values. */
  function Records(rows: seq<Row>): (rs: seq<seq<string>>)
    ensures |rs| == |rows| + 1 && rs[0] == Headers
    ensures forall k :: 1 <= k < |rs| ==> rs[k] == Fields(rows[k - 1])
  {
    [Headers] + seq(|rows|, k requires 0 <= k < |rows| => Fields(rows[k]))
  }

  /** Each record's values as the export writes them. */
  function Written(rows: seq<Row>): (es: seq<seq<string>>)
    ensures |es| == |rows| + 1 && es[0] == Headers
    ensures forall k :: 1 <= k < |es| ==> es[k] == QuoteAll(Fields(rows[k - 1]))
  {
    [Headers] + seq(|rows|, k requires 0 <= k < |rows| => QuoteAll(Fields(rows[k])))
  }

  lemma WrittenLines(rows: seq<Row>)
    ensures forall k :: 0 <= k < |rows| + 1 ==> Lines(rows)[k] == Join(Written(rows)[k], ",")
  {
  }

  lemma WrittenValues(rows: seq<Row>)
    ensures forall k :: 0 <= k < |rows| + 1 ==> |Written(rows)[k]| == |Records(rows)[k]| >= 1
    ensures forall k, i :: 0 <= k < |rows| + 1 && 0 <= i < |Written(rows)[k]| ==>
              Writes(Written(rows)[k][i], Records(rows)[k][i])
  {
    var es, records := Written(rows), Records(rows);
    forall k, i | 0 <= k < |es| && 0 <= i < |es[k]| ensures Writes(es[k][i], records[k][i]) {
      if k == 0 {
        HeadersPlain(i);
      }
    }
  }

  /** Reading the export back gives the headers, then each row's nine
      values, in order: one record more than there are rows. */
  lemma ExportRead(rows: seq<Row>)
    ensures ReadRecords(Export(rows)) == Some(Records(rows))
  {
    WrittenLines(rows);
    WrittenValues(rows);
    RecordsRead(Lines(rows), Written(rows), Records(rows));
  }

  lemma HeadersPlain(i: int)
    requires 0 <= i < |Headers|
    ensures Plain(Headers[i])
  {
    var h := Headers[i];
    forall j | 0 <= j < |h| ensures h[j] != ',' && h[j] != '\n' && h[j] != '"' && h[j] != '\r' {
      assert 'a' <= h[j] <= 'z' || h[j] == '_';
    }
  }

  /** Every record of the export has nine values. */
  lemma ExportShape(rows: seq<Row>)
    ensures var r := ReadRecords(Export(rows));
            r.Some? && |r.value| == |rows| + 1 && r.value[0] == Headers
            && forall k :: 0 <= k < |r.value| ==> |r.value[k]| == 9
  {
    var rs := Records(rows);
    assert ReadRecords(Export(rows)) == Some(rs) by {
      ExportRead(rows);
    }
    forall k | 0 <= k < |rs| ensures |rs[k]| == 9 {
      if k > 0 {
        assert rs[k] == Fields(rows[k - 1]);
      }
    }
  }

  // ------------------------------------------------------------ paging

  /** A positive factor keeps the sign of the other. */
  lemma MulSign(a: int, b: int)
    ensures b > 0 ==> (a * b >= 0 <==> a >= 0)
  {
    if a < 0 && b > 0 {
      assert a * b <= -b by { assert a * b == -((-a) * b); }
    }
  }

  /** The first index of a page: `from = page * pageSize`. */
  function From(page: int, pageSize: int): (r: int)
    ensures page == 0 ==> r == 0
    ensures pageSize > 0 ==> (r >= 0 <==> page >= 0)
  {
    MulSign(page, pageSize);
    page * pageSize
  }

  /** The last index of a page: `to = from + pageSize - 1`. */
  function To(page: int, pageSize: int): (r: int)
    ensures r + 1 == From(page + 1, pageSize)
  {
    assert (page + 1) * pageSize == page * pageSize + pageSize;
    From(page, pageSize) + pageSize - 1
  }

  /** A page's range holds exactly `pageSize` indices, the next page starts
      right after it, and pages do not overlap. */
  lemma RangeShape(page: int, pageSize: int, other: int)
    requires pageSize > 0
    ensures To(page, pageSize) - From(page, pageSize) + 1 == pageSize
    ensures From(page + 1, pageSize) == To(page, pageSize) + 1
    ensures page < other ==> To(page, pageSize) < From(other, pageSize)
  {
    assert (page + 1) * pageSize == page * pageSize + pageSize;
    if page < other {
      MulMono(page + 1, other, pageSize);
    }
  }

  /** `Math.ceil(total / pageSize)` on whole numbers. */
  function CeilDiv(total: nat, pageSize: int): (c: nat)
    requires pageSize > 0
    ensures c * pageSize >= total
    ensures c > 0 ==> (c - 1) * pageSize < total
  {
    (total + pageSize - 1) / pageSize
  }

  /** `Math.max(1, Math.ceil(total / pageSize))`. */
  function PageCount(total: nat, pageSize: int): (c: nat)
    requires pageSize > 0
    ensures c >= 1
    ensures total == 0 ==> c == 1
    ensures total > 0 ==> (c - 1) * pageSize < total <= c * pageSize
  {
    if CeilDiv(total, pageSize) < 1 then 1 else CeilDiv(total, pageSize)
  }

  predicate PrevDisabled(page: int) {
    page <= 0
  }

  predicate NextDisabled(page: int, total: nat, pageSize: int)
    requires pageSize > 0
  {
    page + 1 >= PageCount(total, pageSize)
  }

  /** `setPage(p => Math.max(0, p - 1))`. */
  function Prev(page: int): (p: int)
    ensures p >= 0 && (page > 0 ==> p == page - 1)
  {
    if page - 1 < 0 then 0 else page - 1
  }

  lemma {:induction false} MulMono(a: int, b: int, s: int)
    requires a <= b && s > 0
    ensures a * s <= b * s
    decreases b - a
  {
    if a < b {
      MulMono(a, b - 1, s);
      assert (b - 1) * s + s == b * s;
    }
  }

  /** The next button is enabled exactly when the next page starts before
      the last row, so it is never empty. */
  lemma NextEnabledIff(page: int, total: nat, pageSize: int)
    requires pageSize > 0 && page >= 0
    ensures !NextDisabled(page, total, pageSize) <==> From(page + 1, pageSize) < total
  {
    var c := PageCount(total, pageSize);
    if page + 1 < c {
      MulMono(page + 1, c - 1, pageSize);
    } else if total > 0 {
      MulMono(c, page + 1, pageSize);
    } else {
      MulMono(0, page + 1, pageSize);
    }
  }

  // ------------------------------------------------------------ login

  /** The letters of Latin-1 that decompose into a base letter and marks,
      mapped to their base letter: what decomposition followed by removing
      the marks leaves of them. */
  function BaseLetter(c: char): char {
    if '\U{00C0}' <= c <= '\U{00C5}' then 'A'
    else if c == '\U{00C7}' then 'C'
    else if '\U{00C8}' <= c <= '\U{00CB}' then 'E'
    else if '\U{00CC}' <= c <= '\U{00CF}' then 'I'
    else if c == '\U{00D1}' then 'N'
    else if '\U{00D2}' <= c <= '\U{00D6}' then 'O'
    else if '\U{00D9}' <= c <= '\U{00DC}' then 'U'
    else if c == '\U{00DD}' then 'Y'
    else if '\U{00E0}' <= c <= '\U{00E5}' then 'a'
    else if c == '\U{00E7}' then 'c'
    else if '\U{00E8}' <= c <= '\U{00EB}' then 'e'
    else if '\U{00EC}' <= c <= '\U{00EF}' then 'i'
    else if c == '\U{00F1}' then 'n'
    else if '\U{00F2}' <= c <= '\U{00F6}' then 'o'
    else if '\U{00F9}' <= c <= '\U{00FC}' then 'u'
    else if c == '\U{00FD}' || c == '\U{00FF}' then 'y'
    else c
  }

  function Decompose(s: string): (r: string)
    ensures |r| == |s| && forall i :: 0 <= i < |r| ==> r[i] == BaseLetter(s[i])
  {
    seq(|s|, i requires 0 <= i < |s| => BaseLetter(s[i]))
  }

  /** The combining diacritical marks, U+0300 to U+036F. */
  predicate IsMark(c: char) {
    '\U{0300}' <= c <= '\U{036F}'
  }

  /** `replace(/[̀-ͯ]/g, "")`. */
  function StripMarks(s: string): (r: string)
    ensures |r| <= |s| && forall i :: 0 <= i < |r| ==> !IsMark(r[i])
  {
    if |s| == 0 then ""
    else if IsMark(s[|s| - 1]) then StripMarks(s[..|s| - 1])
    else StripMarks(s[..|s| - 1]) + [s[|s| - 1]]
  }

  /** `norm(s)`: without accents, in lower case, trimmed. */
  function Norm(s: string): (r: string)
    ensures |r| <= |s|
    ensures r == [] || (!IsSpace(r[0]) && !IsSpace(r[|r| - 1]))
  {
    Trim(Lower(StripMarks(Decompose(s))))
  }

  /** What `norm` gives holds no upper-case ASCII letter. */
  lemma NormLowerCase(s: string)
    ensures forall c :: c in Norm(s) ==> !('A' <= c <= 'Z')
  {
    TrimChars(Lower(StripMarks(Decompose(s))));
  }

  const AuthKey := "admin.auth"
  const BadCredentials := "Credenciales incorrectas."

  /** The check `handleLogin` makes. */
  function LoginAccepted(user: string, pass: string): (ok: bool)
    ensures ok ==> pass == "admin"
  {
    Norm(user) == "admin" && pass == "admin"
  }

  lemma {:induction false} StripMarksAppend(a: string, b: string)
    ensures StripMarks(a + b) == StripMarks(a) + StripMarks(b)
  {
    if |b| == 0 {
      assert a + b == a;
    } else {
      assert (a + b)[..|a + b| - 1] == a + b[..|b| - 1];
      StripMarksAppend(a, b[..|b| - 1]);
    }
  }

  lemma {:induction false} StripMarksSpaces(a: string)
    requires AllSpace(a)
    ensures StripMarks(a) == a
  {
    if |a| > 0 {
      StripMarksSpaces(a[..|a| - 1]);
    }
  }

  lemma DecomposePadded(a: string, x: string, b: string)
    requires AllSpace(a) && AllSpace(b)
    ensures Decompose(a + x + b) == a + Decompose(x) + b
  {
    var l, r := Decompose(a + x + b), a + Decompose(x) + b;
    forall i | 0 <= i < |l| ensures l[i] == r[i] {
      if i < |a| {
        assert IsSpace(a[i]);
      } else if i >= |a| + |x| {
        assert IsSpace(b[i - |a| - |x|]);
      }
    }
  }

  lemma StripMarksPadded(a: string, x: string, b: string)
    requires AllSpace(a) && AllSpace(b)
    ensures StripMarks(a + x + b) == a + StripMarks(x) + b
  {
    StripMarksAppend(a + x, b);
    StripMarksAppend(a, x);
    StripMarksSpaces(a);
    StripMarksSpaces(b);
  }

  lemma LowerPadded(a: string, x: string, b: string)
    requires AllSpace(a) && AllSpace(b)
    ensures Lower(a + x + b) == a + Lower(x) + b
  {
    var l, r := Lower(a + x + b), a + Lower(x) + b;
    forall i | 0 <= i < |l| ensures l[i] == r[i] {
      if i < |a| {
        assert IsSpace(a[i]);
      } else if i >= |a| + |x| {
        assert IsSpace(b[i - |a| - |x|]);
      }
    }
  }

  /** White space around the user name does not change the login. */
  lemma NormPadded(a: string, x: string, b: string)
    requires AllSpace(a) && AllSpace(b)
    ensures Norm(a + x + b) == Norm(x)
  {
    DecomposePadded(a, x, b);
    var m := StripMarks(Decompose(x));
    StripMarksPadded(a, Decompose(x), b);
    LowerPadded(a, m, b);
    TrimPadded(a, Lower(m), b);
  }

  lemma NormAdmin()
    ensures Norm("admin") == "admin"
  {
    assert Decompose("admin") == "admin";
    StripMarksLetters("admin");
    assert Lower("admin") == "admin";
    TrimLetters("admin");
  }

  lemma {:induction false} StripMarksLetters(x: string)
    requires forall i :: 0 <= i < |x| ==> !IsMark(x[i])
    ensures StripMarks(x) == x
  {
    if |x| > 0 {
      StripMarksLetters(x[..|x| - 1]);
    }
  }

  lemma TrimLetters(x: string)
    requires forall i :: 0 <= i < |x| ==> 'a' <= x[i] <= 'z'
    ensures Trim(x) == x
  {
    if |x| > 0 {
      assert !IsSpace(x[0]) && !IsSpace(x[|x| - 1]);
    }
  }

  /** Any spelling of the user name whose letters, once their accents are
      removed and the case lowered, read "admin" logs in, whatever white
      space surrounds it. */
  lemma LoginAnySpelling(a: string, w: string, b: string)
    requires AllSpace(a) && AllSpace(b) && |w| == 5
    requires forall i :: 0 <= i < 5 ==> LowerChar(BaseLetter(w[i])) == "admin"[i]
    ensures LoginAccepted(a + w + b, "admin")
  {
    var d := Decompose(w);
    forall i | 0 <= i < |d| ensures !IsMark(d[i]) {
      assert LowerChar(d[i]) == "admin"[i];
    }
    StripMarksLetters(d);
    assert Lower(d) == "admin";
    TrimLetters("admin");
    NormPadded(a, w, b);
  }

  /** The user name is read without regard to case, accents or the white
      space around it. */
  lemma LoginExamples(a: string, b: string)
    requires AllSpace(a) && AllSpace(b)
    ensures LoginAccepted(a + "admin" + b, "admin")
    ensures LoginAccepted(a + "ADMIN" + b, "admin")
    ensures LoginAccepted(a + "\U{00C1}dm\U{00CD}n" + b, "admin")
    ensures !LoginAccepted(a + "admin" + b, "Admin")
  {
    NormAdmin();
    NormPadded(a, "admin", b);
    NormPadded(a, "ADMIN", b);
    NormPadded(a, "\U{00C1}dm\U{00CD}n", b);
    NormUpper();
    NormAccented();
  }

  /** Both spellings lower to the same letters once the marks are gone. */
  lemma NormUpper()
    ensures Norm("ADMIN") == "admin"
  {
    assert Decompose("ADMIN") == "ADMIN";
    StripMarksLetters("ADMIN");
    assert Lower("ADMIN") == "admin";
    TrimLetters("admin");
  }

  lemma NormAccented()
    ensures Norm("\U{00C1}dm\U{00CD}n") == "admin"
  {
    assert Decompose("\U{00C1}dm\U{00CD}n") == "AdmIn";
    StripMarksLetters("AdmIn");
    assert Lower("AdmIn") == "admin";
    TrimLetters("admin");
  }

  // ------------------------------------------------------------ the page

  datatype Mode = Centro | Componente

  /** The page's state: the login form, the filters, the page shown and the
      rows loaded; `session` is the browser's session store. */
  class AdminPage {
    const session: Storage.Store
    var authed: bool
    var user: string
    var pass: string
    var loginError: Option<string>
    var rows: seq<Row>
    var mode: Mode
    var query: string
    var fecha: string
    var pageSize: int
    var page: int
    var total: nat

    /** The page as first shown; `today` stands for today's date. */
    constructor (session: Storage.Store, today: string)
      ensures this.session == session
      ensures authed == (session.GetItem(AuthKey) == Some("1"))
      ensures user == "" && pass == "" && loginError == None && rows == []
      ensures mode == Centro && query == "" && fecha == today
      ensures pageSize == 100 && page == 0 && total == 0
    {
      this.session := session;
      authed := session.GetItem(AuthKey) == Some("1");
      user, pass, loginError, rows := "", "", None, [];
      mode, query, fecha := Centro, "", today;
      pageSize, page, total := 100, 0, 0;
    }

    /** `handleLogin`. */
    method HandleLogin()
      modifies this, session
      ensures LoginAccepted(old(user), old(pass)) ==>
                session.entries == old(session.entries)[AuthKey := "1"] && authed && loginError == None
      ensures !LoginAccepted(old(user), old(pass)) ==>
                session.entries == old(session.entries) && authed == old(authed)
                && loginError == Some(BadCredentials)
      ensures user == old(user) && pass == old(pass) && rows == old(rows) && page == old(page)
      ensures mode == old(mode) && query == old(query) && fecha == old(fecha)
      ensures pageSize == old(pageSize) && total == old(total)
    {
      var ok := LoginAccepted(user, pass);
      Decide(ok);
    }

    /** What `handleLogin` does once the credentials are judged. */
    method Decide(ok: bool)
      modifies this, session
      ensures ok ==> session.entries == old(session.entries)[AuthKey := "1"] && authed && loginError == None
      ensures !ok ==> session.entries == old(session.entries) && authed == old(authed)
                      && loginError == Some(BadCredentials)
      ensures user == old(user) && pass == old(pass) && rows == old(rows) && page == old(page)
      ensures mode == old(mode) && query == old(query) && fecha == old(fecha)
      ensures pageSize == old(pageSize) && total == old(total)
    {
      if ok {
        session.SetItem(AuthKey, "1");
        authed := true;
        loginError := None;
      } else {
        loginError := Some(BadCredentials);
      }
    }

    /** `handleLogout`. */
    method HandleLogout()
      modifies this, session
      ensures session.entries == old(session.entries) - {AuthKey}
      ensures !authed && user == "" && pass == ""
      ensures loginError == old(loginError) && rows == old(rows) && page == old(page)
      ensures mode == old(mode) && query == old(query) && fecha == old(fecha)
      ensures pageSize == old(pageSize) && total == old(total)
    {
      session.RemoveItem(AuthKey);
      authed := false;
      user := "";
      pass := "";
    }

    /** What a finished fetch stores: the rows and the count. */
    method Loaded(data: seq<Row>, count: Option<nat>)
      modifies this
      ensures rows == data && total == count.GetOr(0)
      ensures authed == old(authed) && user == old(user) && pass == old(pass)
      ensures loginError == old(loginError) && page == old(page) && mode == old(mode)
      ensures query == old(query) && fecha == old(fecha) && pageSize == old(pageSize)
    {
      rows := data;
      total := count.GetOr(0);
    }

    method SetFecha(value: string)
      modifies this
      ensures fecha == value && page == 0
      ensures authed == old(authed) && user == old(user) && pass == old(pass) && rows == old(rows)
      ensures loginError == old(loginError) && mode == old(mode) && query == old(query)
      ensures pageSize == old(pageSize) && total == old(total)
    {
      page := 0;
      fecha := value;
    }

    method SetMode(value: Mode)
      modifies this
      ensures mode == value && page == 0
      ensures authed == old(authed) && user == old(user) && pass == old(pass) && rows == old(rows)
      ensures loginError == old(loginError) && fecha == old(fecha) && query == old(query)
      ensures pageSize == old(pageSize) && total == old(total)
    {
      page := 0;
      mode := value;
    }

    method SetQuery(value: string)
      modifies this
      ensures query == value && page == 0
      ensures authed == old(authed) && user == old(user) && pass == old(pass) && rows == old(rows)
      ensures loginError == old(loginError) && fecha == old(fecha) && mode == old(mode)
      ensures pageSize == old(pageSize) && total == old(total)
    {
      page := 0;
      query := value;
    }

    /** The page-size selector offers 50, 100 and 200. */
    method SetPageSize(value: int)
      requires value == 50 || value == 100 || value == 200
      modifies this
      ensures pageSize == value && page == 0
      ensures authed == old(authed) && user == old(user) && pass == old(pass) && rows == old(rows)
      ensures loginError == old(loginError) && fecha == old(fecha) && mode == old(mode)
      ensures query == old(query) && total == old(total)
    {
      page := 0;
      pageSize := value;
    }

    /** A click on the previous-page button, which does nothing while it is
      disabled. */
    method PrevPage()
      modifies this
      ensures page == if PrevDisabled(old(page)) then old(page) else Prev(old(page))
      ensures old(page) >= 0 ==> page >= 0
      ensures authed == old(authed) && user == old(user) && pass == old(pass) && rows == old(rows)
      ensures loginError == old(loginError) && fecha == old(fecha) && mode == old(mode)
      ensures query == old(query) && pageSize == old(pageSize) && total == old(total)
    {
      if !PrevDisabled(page) {
        page := Prev(page);
      }
    }

    /** A click on the next-page button, which does nothing while it is
        disabled. */
    method NextPage()
      requires pageSize > 0
      modifies this
      ensures pageSize == old(pageSize) && total == old(total)
      ensures page == if NextDisabled(old(page), total, pageSize) then old(page) else old(page) + 1
      ensures old(page) >= 0 && page != old(page) ==> From(page, pageSize) < total
      ensures authed == old(authed) && user == old(user) && pass == old(pass) && rows == old(rows)
      ensures loginError == old(loginError) && fecha == old(fecha) && mode == old(mode)
      ensures query == old(query)
    {
      if old(page) >= 0 {
        NextEnabledIff(page, total, pageSize);
      }
      if !NextDisabled(page, total, pageSize) {
        page := page + 1;
      }
    }

    /** `exportCsv`: the name and the text of the file it offers for
        download; the name carries the day and the page shown, counted from
        one. */
    method ExportCsv() returns (name: string, csv: string)
      ensures name == "cuadernillo_" + fecha + "_p" + IntToString(page + 1) + ".csv"
      ensures ReadRecords(csv) == Some(Records(rows))
    {
      name := "cuadernillo_" + fecha + "_p" + IntToString(page + 1) + ".csv";
      csv := Export(rows);
      ExportRead(rows);
    }
  }
}
