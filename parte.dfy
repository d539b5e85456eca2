/** The daily roll ("parte") page (src/pages/Page2.tsx): its storage key,
    the rows it keeps in step with the component roster, the per-row edits
    and the row form sent to and read back from the remote table. */
module Parte {
  import opened Wrappers
  import opened Text
  import opened Selection
  import Componentes

  // ------------------------------------------------------------ the key

  /** The page header saved by the month page; only what the key uses. */
  datatype Header = Header(tipo: Option<Tipo>, unidad: Option<string>, caseta: Option<string>)

  const Prefix := "infoex:parte:"

  /** `String(n).padStart(2, "0")`. */
  function Pad2(n: int): string {
    PadStart(IntToString(n), 2, '0')
  }

  /** A padded month or day is two digits and keeps its value. */
  lemma Pad2Value(n: int)
    requires 0 <= n < 100
    ensures AllDigits(Pad2(n)) && DigitsValue(Pad2(n)) == n && |Pad2(n)| == 2
  {
    var s := IntToString(n);
    var r := Pad2(n);
    NatToStringValue(n);
    assert n >= 10 ==> s == NatToString(n / 10) + [Digit(n % 10)];
    if |s| < 2 {
      assert r == r[..2 - |s|] + s;
      LeadingZeroValue(r[..2 - |s|], s);
    }
  }

  /** `header?.tipo ?? "NA"`. */
  function TipoPart(header: Option<Header>): string {
    if header.Some? && header.value.tipo.Some? then TipoName(header.value.tipo.value) else "NA"
  }

  /** The centre the header names: its caseta when the type is caseta,
      otherwise its unit. */
  function Chosen(h: Header): Option<string> {
    if h.tipo == Some(Caseta) then h.caseta else h.unidad
  }

  /** `(tipo === "caseta" ? caseta : unidad) ?? "SIN"`. */
  function CentrePart(header: Option<Header>): (r: string)
    ensures header.Some? && header.value.tipo == Some(Caseta) && header.value.caseta.Some?
            ==> r == header.value.caseta.value
    ensures header.Some? && header.value.tipo != Some(Caseta) && header.value.unidad.Some?
            ==> r == header.value.unidad.value
    ensures header.Some? && Chosen(header.value).None? ==> r == "SIN"
    ensures header.None? ==> r == "SIN"
  {
    match header
    case None => "SIN"
    case Some(h) => Chosen(h).GetOr("SIN")
  }

  function DatePart(anio: int, mes: int, dia: int): string {
    Join([IntToString(anio), Pad2(mes), Pad2(dia)], "-")
  }

  /** `storageKey`: the date, the centre type and the centre, after the prefix. */
  function StorageKey(header: Option<Header>, anio: int, mes: int, dia: int): (r: string)
    ensures IsPrefix(Prefix, r) && |r| > |Prefix|
  {
    Prefix + Join([DatePart(anio, mes, dia), TipoPart(header), CentrePart(header)], ":")
  }

  /** `partePk`: the key without its prefix. */
  function PartePk(key: string): (r: string)
    ensures IsPrefix(Prefix, key) ==> Prefix + r == key
    ensures |key| < |Prefix| ==> r == key
  {
    assert IsPrefix(Prefix, key) ==> key == Prefix + key[|Prefix|..];
    ReplaceFirst(key, Prefix, "")
  }

  /** The primary key is the storage key after its prefix. */
  lemma PrefixThenPk(header: Option<Header>, anio: int, mes: int, dia: int)
    ensures Prefix + PartePk(StorageKey(header, anio, mes, dia)) == StorageKey(header, anio, mes, dia)
  {
    ReplaceLeadingPrefix(Prefix, Join([DatePart(anio, mes, dia), TipoPart(header), CentrePart(header)], ":"));
  }

  lemma DigitsFree(s: string, c: char)
    requires AllDigits(s) && !IsDigit(c)
    ensures Free(s, c)
  {
  }

  /** The date reads back as year, month and day, the month and day
      zero-padded to two digits, when the year is not negative. */
  lemma DateFields(anio: int, mes: int, dia: int)
    requires 0 <= anio && 1 <= mes <= 12 && 1 <= dia <= 31
    ensures var f := Split(DatePart(anio, mes, dia), '-');
            |f| == 3 && f[0] == IntToString(anio) && |f[1]| == 2 && |f[2]| == 2
            && AllDigits(f[1]) && DigitsValue(f[1]) == mes
            && AllDigits(f[2]) && DigitsValue(f[2]) == dia
  {
    var y, m, d := IntToString(anio), Pad2(mes), Pad2(dia);
    Pad2Value(mes);
    Pad2Value(dia);
    DigitsFree(y, '-');
    DigitsFree(m, '-');
    DigitsFree(d, '-');
    SplitJoin([y, m, d], '-');
  }

  /** The date holds no colon. */
  lemma DateFree(anio: int, mes: int, dia: int)
    requires 0 <= anio && 1 <= mes <= 12 && 1 <= dia <= 31
    ensures Free(DatePart(anio, mes, dia), ':')
  {
    var y, m, d := IntToString(anio), Pad2(mes), Pad2(dia);
    Pad2Value(mes);
    Pad2Value(dia);
    var date := DatePart(anio, mes, dia);
    assert [y, m, d][1..] == [m, d] && [m, d][1..] == [d];
    assert Join([d], "-") == d;
    assert Join([m, d], "-") == m + "-" + d;
    assert date == y + "-" + (m + "-" + d);
    forall k | 0 <= k < |date| ensures date[k] != ':' {
      if k < |y| { assert date[k] == y[k]; }
      else if k == |y| { }
      else if k < |y| + 1 + |m| { assert date[k] == m[k - |y| - 1]; }
      else if k == |y| + 1 + |m| { }
      else { assert date[k] == d[k - |y| - 2 - |m|]; }
    }
  }

  /** Three texts joined by ':', the first two without one, split back
      into the first two and then the pieces of the third. */
  lemma SplitThree(date: string, tipo: string, centre: string)
    requires Free(date, ':') && Free(tipo, ':')
    ensures Split(Join([date, tipo, centre], ":"), ':') == [date, tipo] + Split(centre, ':')
  {
    assert Join([date, tipo, centre], ":") == date + [':'] + (tipo + [':'] + centre) by {
      assert [date, tipo, centre][1..] == [tipo, centre] && [tipo, centre][1..] == [centre];
      assert Join([tipo, centre], ":") == tipo + ":" + centre;
    }
    SplitAround(date, tipo + [':'] + centre, ':');
    SplitAround(tipo, centre, ':');
    SplitWhole(date, ':');
    SplitWhole(tipo, ':');
  }

  lemma TipoFree(header: Option<Header>)
    ensures Free(TipoPart(header), ':')
  {
  }

  /** The primary key splits on ':' into the date, the type, and then
      whatever pieces the centre's own colons make of it. */
  lemma KeyPieces(header: Option<Header>, anio: int, mes: int, dia: int)
    requires 0 <= anio && 1 <= mes <= 12 && 1 <= dia <= 31
    ensures Split(PartePk(StorageKey(header, anio, mes, dia)), ':')
            == [DatePart(anio, mes, dia), TipoPart(header)] + Split(CentrePart(header), ':')
  {
    var date, tipo, centre := DatePart(anio, mes, dia), TipoPart(header), CentrePart(header);
    ReplaceLeadingPrefix(Prefix, Join([date, tipo, centre], ":"));
    DateFree(anio, mes, dia);
    TipoFree(header);
    SplitThree(date, tipo, centre);
  }

  /** The key's first ':'-piece is the date. */
  lemma KeyDate(header: Option<Header>, anio: int, mes: int, dia: int)
    requires 0 <= anio && 1 <= mes <= 12 && 1 <= dia <= 31
    ensures Split(PartePk(StorageKey(header, anio, mes, dia)), ':')[0] == DatePart(anio, mes, dia)
  {
    KeyPieces(header, anio, mes, dia);
  }

  /** The primary key reads back as its date, type and centre when the
      centre holds no colon. */
  lemma KeyFields(header: Option<Header>, anio: int, mes: int, dia: int)
    requires Free(CentrePart(header), ':')
    requires 0 <= anio && 1 <= mes <= 12 && 1 <= dia <= 31
    ensures Split(PartePk(StorageKey(header, anio, mes, dia)), ':')
            == [DatePart(anio, mes, dia), TipoPart(header), CentrePart(header)]
  {
    KeyPieces(header, anio, mes, dia);
    SplitWhole(CentrePart(header), ':');
  }

  /** Two days of the same centre never share a key, whatever the centre
      is called. */
  lemma KeyDistinguishesDays(header: Option<Header>, anio: int, mes: int, dia: int, anio2: int, mes2: int, dia2: int)
    requires 0 <= anio && 1 <= mes <= 12 && 1 <= dia <= 31
    requires 0 <= anio2 && 1 <= mes2 <= 12 && 1 <= dia2 <= 31
    requires StorageKey(header, anio, mes, dia) == StorageKey(header, anio2, mes2, dia2)
    ensures anio == anio2 && mes == mes2 && dia == dia2
  {
    var key := StorageKey(header, anio, mes, dia);
    KeyDate(header, anio, mes, dia);
    KeyDate(header, anio2, mes2, dia2);
    assert DatePart(anio, mes, dia) == Split(PartePk(key), ':')[0] == DatePart(anio2, mes2, dia2);
    DateFields(anio, mes, dia);
    DateFields(anio2, mes2, dia2);
    NatToStringValue(anio);
    NatToStringValue(anio2);
  }

  // ------------------------------------------------------------ rows

  /** A start/end pair of "HH:MM" times. */
  datatype Rango = Rango(ini: string, fin: string)

  datatype Fila = Fila(
    componenteId: string,
    codigo: string,
    abonoDF: bool,
    superiorCategoria: bool,
    jornada: Rango,
    salida: Rango)

  type Componente = Componentes.Componente

  /** The key the page reads its roster from (src/pages/Page2.tsx line 60). */
  const RosterKey := "infoex:componentes"

  /** The roster the page starts from: the list stored under `key` when it
      reads as a list of components, and the initial empty list when the
      key is missing or empty, or its text does not read as one. */
  function RosterFrom(raw: Option<string>): (r: seq<Componente>)
    ensures raw.None? || raw == Some("") ==> r == []
    ensures Componentes.ArrayOf(raw).None? ==> r == []
  {
    match Componentes.ArrayOf(raw)
    case None => []
    case Some(items) => Componentes.FromItems(items).GetOr([])
  }

  /** The roster load as written: it reads only the key the roster page
      treats as a legacy key. */
  function LoadRosterAsWritten(store: map<string, string>): (r: seq<Componente>)
    ensures !Componentes.Filled(store, RosterKey) ==> r == []
  {
    RosterFrom(Componentes.GetItem(store, RosterKey))
  }

  /** The evidently intended roster load: it reads the keys the roster
      page's fallback reads, in the same order, so it sees what that page
      wrote. Only the corrected lemmas under the findings use it. */
  function LoadRoster(store: map<string, string>): seq<Componente> {
    RosterFrom(Componentes.Fallback(store))
  }

  /** The row a component gets when it has none. */
  function DefaultFila(id: string): Fila {
    Fila(id, "", false, false, Rango("", ""), Rango("", ""))
  }

  /** `new Map(prev.map(f => [f.componenteId, f])).get(id)`: the last row
      with that id, since a later entry overwrites an earlier one. */
  function FindRow(prev: seq<Fila>, id: string): (r: Option<Fila>)
    ensures r.None? <==> forall i :: 0 <= i < |prev| ==> prev[i].componenteId != id
    ensures r.Some? ==> exists i :: 0 <= i < |prev| && prev[i] == r.value && prev[i].componenteId == id
                                    && forall j :: i < j < |prev| ==> prev[j].componenteId != id
  {
    if |prev| == 0 then None
    else if prev[|prev| - 1].componenteId == id then Some(prev[|prev| - 1])
    else
      var r := FindRow(prev[..|prev| - 1], id);
      if r.Some? then
        var i :| 0 <= i < |prev| - 1 && prev[..|prev| - 1][i] == r.value && prev[i].componenteId == id
                 && forall j :: i < j < |prev| - 1 ==> prev[j].componenteId != id;
        assert forall j :: i < j < |prev| ==> prev[j].componenteId != id;
        r
      else r
  }

  /** The rows after the roster changed: one per component, in roster order,
      keeping each component's row and giving a new one a default row. */
  function Sync(prev: seq<Fila>, comps: seq<Componente>): (r: seq<Fila>)
    ensures |r| == |comps|
    ensures forall k :: 0 <= k < |r| ==> r[k].componenteId == comps[k].id
    ensures forall k :: 0 <= k < |r| ==>
              r[k] == (match FindRow(prev, comps[k].id)
                       case Some(f) => f
                       case None => DefaultFila(comps[k].id))
  {
    if |comps| == 0 then []
    else seq(|comps|, k requires 0 <= k < |comps| =>
               match FindRow(prev, comps[k].id)
               case Some(f) => f
               case None => DefaultFila(comps[k].id))
  }

  /** An empty roster leaves no rows. */
  lemma SyncEmpty(prev: seq<Fila>)
    ensures Sync(prev, []) == []
  {
  }

  /** A component that already had a row keeps it unchanged. */
  lemma SyncKeepsRow(prev: seq<Fila>, comps: seq<Componente>, k: nat, i: nat)
    requires k < |comps| && i < |prev| && prev[i].componenteId == comps[k].id
    requires forall j :: 0 <= j < |prev| && j != i ==> prev[j].componenteId != comps[k].id
    ensures Sync(prev, comps)[k] == prev[i]
  {
  }

  /** A component with no row gets the default row. */
  lemma SyncNewRow(prev: seq<Fila>, comps: seq<Componente>, k: nat)
    requires k < |comps| && forall j :: 0 <= j < |prev| ==> prev[j].componenteId != comps[k].id
    ensures Sync(prev, comps)[k] == DefaultFila(comps[k].id)
  {
  }

  /** Syncing twice with the same roster changes nothing more. */
  lemma SyncIdempotent(prev: seq<Fila>, comps: seq<Componente>)
    ensures Sync(Sync(prev, comps), comps) == Sync(prev, comps)
  {
    var once := Sync(prev, comps);
    forall k | 0 <= k < |comps| ensures Sync(once, comps)[k] == once[k] {
      // The row found is that of some component with the same id, and
      // components with equal ids got equal rows the first time.
      assert once[k].componenteId == comps[k].id;
      var i :| 0 <= i < |once| && once[i] == FindRow(once, comps[k].id).value
               && once[i].componenteId == comps[k].id;
      assert comps[i].id == comps[k].id;
    }
  }

  // ------------------------------------------------------------ edits

  /** The property `updateFila` sets, with its new value. */
  datatype FilaUpdate =
    | SetComponenteId(id: string)
    | SetCodigo(codigo: string)
    | SetAbonoDF(abonoDF: bool)
    | SetSuperiorCategoria(superiorCategoria: bool)
    | SetJornada(jornada: Rango)
    | SetSalida(salida: Rango)

  /** `{ ...f, [key]: value }`. */
  function Apply(f: Fila, u: FilaUpdate): Fila {
    match u
    case SetComponenteId(x) => f.(componenteId := x)
    case SetCodigo(x) => f.(codigo := x)
    case SetAbonoDF(x) => f.(abonoDF := x)
    case SetSuperiorCategoria(x) => f.(superiorCategoria := x)
    case SetJornada(x) => f.(jornada := x)
    case SetSalida(x) => f.(salida := x)
  }

  /** The names of a row's properties, and what a row holds under each. */
  datatype FieldName = ComponenteId | Codigo | AbonoDF | SuperiorCategoria | Jornada | Salida
  datatype FieldValue = Str(s: string) | Flag(b: bool) | Times(r: Rango)

  function Read(f: Fila, n: FieldName): FieldValue {
    match n
    case ComponenteId => Str(f.componenteId)
    case Codigo => Str(f.codigo)
    case AbonoDF => Flag(f.abonoDF)
    case SuperiorCategoria => Flag(f.superiorCategoria)
    case Jornada => Times(f.jornada)
    case Salida => Times(f.salida)
  }

  function Target(u: FilaUpdate): (FieldName, FieldValue) {
    match u
    case SetComponenteId(x) => (ComponenteId, Str(x))
    case SetCodigo(x) => (Codigo, Str(x))
    case SetAbonoDF(x) => (AbonoDF, Flag(x))
    case SetSuperiorCategoria(x) => (SuperiorCategoria, Flag(x))
    case SetJornada(x) => (Jornada, Times(x))
    case SetSalida(x) => (Salida, Times(x))
  }

  /** Setting a property gives it the new value and keeps the others. */
  lemma ApplyOnlyThat(f: Fila, u: FilaUpdate, n: FieldName)
    ensures n == Target(u).0 ==> Read(Apply(f, u), n) == Target(u).1
    ensures n != Target(u).0 ==> Read(Apply(f, u), n) == Read(f, n)
  {
  }

  /** A row is determined by what it holds under each name. */
  lemma ReadDetermines(f: Fila, g: Fila)
    requires forall n: FieldName :: Read(f, n) == Read(g, n)
    ensures f == g
  {
    assert Read(f, ComponenteId) == Read(g, ComponenteId);
    assert Read(f, Codigo) == Read(g, Codigo);
    assert Read(f, AbonoDF) == Read(g, AbonoDF);
    assert Read(f, SuperiorCategoria) == Read(g, SuperiorCategoria);
    assert Read(f, Jornada) == Read(g, Jornada);
    assert Read(f, Salida) == Read(g, Salida);
  }

  /** `updateFila(componenteId, key, value)` on the row list. */
  function FilasUpdated(filas: seq<Fila>, id: string, u: FilaUpdate): (r: seq<Fila>)
    ensures |r| == |filas|
    ensures forall i :: 0 <= i < |r| && filas[i].componenteId != id ==> r[i] == filas[i]
    ensures forall i, n :: 0 <= i < |r| && filas[i].componenteId == id ==>
              Read(r[i], n) == if n == Target(u).0 then Target(u).1 else Read(filas[i], n)
  {
    var r := seq(|filas|, i requires 0 <= i < |filas| =>
                   if filas[i].componenteId == id then Apply(filas[i], u) else filas[i]);
    forall i, n | 0 <= i < |r| && filas[i].componenteId == id
      ensures Read(r[i], n) == if n == Target(u).0 then Target(u).1 else Read(filas[i], n)
    {
      ApplyOnlyThat(filas[i], u, n);
    }
    r
  }

  datatype Bloque = JornadaBloque | SalidaBloque
  datatype Campo = Ini | Fin

  function SetCampo(r: Rango, campo: Campo, value: string): Rango {
    match campo
    case Ini => r.(ini := value)
    case Fin => r.(fin := value)
  }

  /** `{ ...f, [bloque]: { ...f[bloque], [campo]: value } }`. */
  function ApplyRango(f: Fila, bloque: Bloque, campo: Campo, value: string): Fila {
    match bloque
    case JornadaBloque => f.(jornada := SetCampo(f.jornada, campo, value))
    case SalidaBloque => f.(salida := SetCampo(f.salida, campo, value))
  }

  function BloqueOf(f: Fila, bloque: Bloque): Rango {
    match bloque
    case JornadaBloque => f.jornada
    case SalidaBloque => f.salida
  }

  function CampoOf(r: Rango, campo: Campo): string {
    match campo
    case Ini => r.ini
    case Fin => r.fin
  }

  /** `updateRango(componenteId, bloque, campo, value)` on the row list. */
  function RangosUpdated(filas: seq<Fila>, id: string, bloque: Bloque, campo: Campo, value: string): (r: seq<Fila>)
    ensures |r| == |filas|
    ensures forall i :: 0 <= i < |r| && filas[i].componenteId != id ==> r[i] == filas[i]
    ensures forall i, b, c :: 0 <= i < |r| && filas[i].componenteId == id ==>
              CampoOf(BloqueOf(r[i], b), c) ==
                if b == bloque && c == campo then value else CampoOf(BloqueOf(filas[i], b), c)
    ensures forall i :: 0 <= i < |r| ==>
              r[i].componenteId == filas[i].componenteId && r[i].codigo == filas[i].codigo
              && r[i].abonoDF == filas[i].abonoDF && r[i].superiorCategoria == filas[i].superiorCategoria
  {
    seq(|filas|, i requires 0 <= i < |filas| =>
          if filas[i].componenteId == id then ApplyRango(filas[i], bloque, campo, value) else filas[i])
  }

  /** The roll page's row state. */
  class PartePage {
    var filas: seq<Fila>

    constructor ()
      ensures filas == []
    {
      filas := [];
    }

    /** The sync effect that runs when the roster changes. */
    method SyncWith(componentes: seq<Componente>)
      modifies this
      ensures filas == Sync(old(filas), componentes)
    {
      if |componentes| == 0 {
        filas := [];
        return;
      }
      filas := Sync(filas, componentes);
    }

    method UpdateFila(id: string, u: FilaUpdate)
      modifies this
      ensures filas == FilasUpdated(old(filas), id, u)
    {
      filas := FilasUpdated(filas, id, u);
    }

    method UpdateRango(id: string, bloque: Bloque, campo: Campo, value: string)
      modifies this
      ensures filas == RangosUpdated(old(filas), id, bloque, campo, value)
    {
      filas := RangosUpdated(filas, id, bloque, campo, value);
    }
  }

  // ------------------------------------------------------------ remote rows

  /** A row of the remote roll-row table; `None` stands for null. */
  datatype FilaRow = FilaRow(
    partePk: string,
    componenteId: string,
    codigo: Option<string>,
    abonoDF: Option<bool>,
    superiorCategoria: Option<bool>,
    jornadaIni: Option<string>,
    jornadaFin: Option<string>,
    salidaIni: Option<string>,
    salidaFin: Option<string>)

  /** `s || null` on a text. */
  function NullIfEmpty(s: string): (r: Option<string>)
    ensures r.None? <==> s == ""
    ensures r.Some? ==> r.value == s
  {
    if s == "" then None else Some(s)
  }

  /** `!!x` on a nullable flag. */
  function Truthy(b: Option<bool>): bool {
    b == Some(true)
  }

  /** A nullable column holds a text as `s || null` writes it: null for the
      empty text, the text otherwise. */
  predicate Carries(col: Option<string>, s: string) {
    (col.None? <==> s == "") && (col.Some? ==> col.value == s)
  }

  /** A nullable column reads back as `col ?? ""` gives it. */
  predicate ReadsAs(col: Option<string>, s: string) {
    if col == Some("") then s == "" else Carries(col, s)
  }

  /** One entry of the save payload: every flag is sent as a boolean and
      every empty text as null. */
  function ToRow(pk: string, f: Fila): (r: FilaRow)
    ensures r.partePk == pk && r.componenteId == f.componenteId
    ensures r.abonoDF == Some(f.abonoDF) && r.superiorCategoria == Some(f.superiorCategoria)
    ensures Carries(r.codigo, f.codigo)
    ensures Carries(r.jornadaIni, f.jornada.ini) && Carries(r.jornadaFin, f.jornada.fin)
    ensures Carries(r.salidaIni, f.salida.ini) && Carries(r.salidaFin, f.salida.fin)
  {
    FilaRow(pk, f.componenteId, NullIfEmpty(f.codigo), Some(f.abonoDF), Some(f.superiorCategoria),
            NullIfEmpty(f.jornada.ini), NullIfEmpty(f.jornada.fin),
            NullIfEmpty(f.salida.ini), NullIfEmpty(f.salida.fin))
  }

  /** The load mapping of one remote row: a flag is set only when stored as
      true, and a null text reads as empty. */
  function FromRow(row: FilaRow): (r: Fila)
    ensures r.componenteId == row.componenteId
    ensures r.abonoDF <==> row.abonoDF == Some(true)
    ensures r.superiorCategoria <==> row.superiorCategoria == Some(true)
    ensures ReadsAs(row.codigo, r.codigo)
    ensures ReadsAs(row.jornadaIni, r.jornada.ini) && ReadsAs(row.jornadaFin, r.jornada.fin)
    ensures ReadsAs(row.salidaIni, r.salida.ini) && ReadsAs(row.salidaFin, r.salida.fin)
  {
    Fila(row.componenteId, row.codigo.GetOr(""), Truthy(row.abonoDF), Truthy(row.superiorCategoria),
         Rango(row.jornadaIni.GetOr(""), row.jornadaFin.GetOr("")),
         Rango(row.salidaIni.GetOr(""), row.salidaFin.GetOr("")))
  }

  /** The save payload: one remote row per row, in order. */
  function Payload(pk: string, filas: seq<Fila>): (r: seq<FilaRow>)
    ensures |r| == |filas|
    ensures forall i :: 0 <= i < |r| ==> r[i].partePk == pk && r[i].componenteId == filas[i].componenteId
    ensures forall i :: 0 <= i < |r| ==> (r[i].codigo.None? <==> filas[i].codigo == "")
  {
    seq(|filas|, i requires 0 <= i < |filas| => ToRow(pk, filas[i]))
  }

  function Load(rows: seq<FilaRow>): (r: seq<Fila>)
    ensures |r| == |rows|
    ensures forall i :: 0 <= i < |r| ==> r[i].componenteId == rows[i].componenteId
  {
    seq(|rows|, i requires 0 <= i < |rows| => FromRow(rows[i]))
  }

  /** Reading a saved row back gives the row. */
  lemma RowRoundTrip(pk: string, f: Fila)
    ensures FromRow(ToRow(pk, f)) == f
  {
  }

  /** Loading what was saved gives back the rows, in order. */
  lemma {:induction false} PayloadRoundTrip(pk: string, filas: seq<Fila>)
    ensures Load(Payload(pk, filas)) == filas
  {
    forall i | 0 <= i < |filas| ensures Load(Payload(pk, filas))[i] == filas[i] {
      RowRoundTrip(pk, filas[i]);
    }
  }

  /** Saving what was loaded gives back the remote rows, except that null
      flags come back false and empty texts come back null. */
  lemma RowFromRemote(pk: string, r: FilaRow)
    requires r.partePk == pk && r.abonoDF.Some? && r.superiorCategoria.Some?
    requires r.codigo != Some("") && r.jornadaIni != Some("") && r.jornadaFin != Some("")
    requires r.salidaIni != Some("") && r.salidaFin != Some("")
    ensures ToRow(pk, FromRow(r)) == r
  {
    assert r.abonoDF.value || !r.abonoDF.value;
    assert Some(Truthy(r.abonoDF)) == r.abonoDF;
    assert r.superiorCategoria.value || !r.superiorCategoria.value;
    assert Some(Truthy(r.superiorCategoria)) == r.superiorCategoria;
  }
}
