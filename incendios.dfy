/** The fire-trip page (src/pages/Page4.tsx): the list of trips of one daily
    roll, its local storage key, its edits and the rows it saves to and
    loads from the remote trip table. */
module Incendios {
  import opened Wrappers
  import opened Text
  import Parte

  // ------------------------------------------------------------ the key

  const KeyPrefix := "infoex:incendios:"
  const TempKey := "infoex:incendios:temp"

  /** A roll key counts only when present and not empty (`partePk ? … : …`). */
  predicate HasParte(partePk: Option<string>) {
    partePk.Some? && partePk.value != ""
  }

  /** `storageKey`: the roll's trips, or the shared temporary list. */
  function StorageKey(partePk: Option<string>): (r: string)
    ensures HasParte(partePk) ==> r == KeyPrefix + partePk.value
    ensures !HasParte(partePk) ==> r == TempKey
  {
    if HasParte(partePk) then KeyPrefix + partePk.value else TempKey
  }

  /** Different rolls keep their trips under different keys. */
  lemma StorageKeyInjective(a: string, b: string)
    requires a != "" && b != "" && a != b
    ensures StorageKey(Some(a)) != StorageKey(Some(b))
  {
    assert StorageKey(Some(a))[|KeyPrefix|..] == a;
    assert StorageKey(Some(b))[|KeyPrefix|..] == b;
  }

  /** A roll key built by the roll page never falls on the temporary list:
      it starts with a digit of the year. */
  lemma ParteKeyIsNotTemp(header: Option<Parte.Header>, anio: int, mes: int, dia: int)
    requires 0 <= anio
    ensures StorageKey(Some(Parte.PartePk(Parte.StorageKey(header, anio, mes, dia)))) != TempKey
  {
    var pk := Parte.PartePk(Parte.StorageKey(header, anio, mes, dia));
    Parte.PrefixThenPk(header, anio, mes, dia);
    var date := Parte.DatePart(anio, mes, dia);
    var rest := [date, Parte.TipoPart(header), Parte.CentrePart(header)];
    assert Parte.StorageKey(header, anio, mes, dia) == Parte.Prefix + Join(rest, ":");
    assert pk == Join(rest, ":");
    assert rest[0] == date;
    var y := IntToString(anio);
    assert date == y + "-" + Join([Parte.Pad2(mes), Parte.Pad2(dia)], "-");
    assert pk[0] == y[0];
    assert IsDigit(pk[0]);
    assert (KeyPrefix + pk)[|KeyPrefix|] == pk[0];
    assert TempKey[|KeyPrefix|] == 't';
  }

  // ------------------------------------------------------------ trips

  /** `numComponentes`: a count, or the empty text of a blank input. */
  datatype Num = Blank | Count(n: int)

  /** The text properties of a trip. */
  datatype TextField = TerminoMunicipal | HMovilizacion | HSalida | HLlegadaInc | HRegreso | HLlegadaBase

  datatype Salida = Salida(
    id: Option<string>,
    terminoMunicipal: string,
    hMovilizacion: string,
    hSalida: string,
    hLlegadaInc: string,
    hRegreso: string,
    hLlegadaBase: string,
    numComponentes: Num)

  function Get(s: Salida, f: TextField): string {
    match f
    case TerminoMunicipal => s.terminoMunicipal
    case HMovilizacion => s.hMovilizacion
    case HSalida => s.hSalida
    case HLlegadaInc => s.hLlegadaInc
    case HRegreso => s.hRegreso
    case HLlegadaBase => s.hLlegadaBase
  }

  /** The trip `addSalida` appends; `id` stands for `crypto.randomUUID()`. */
  function NewSalida(id: string): (r: Salida)
    ensures r.id == Some(id) && r.numComponentes == Blank
    ensures forall f :: Get(r, f) == ""
  {
    Salida(Some(id), "", "", "", "", "", "", Blank)
  }

  /** `prev.filter(s => s.id !== id)`. */
  function Removed(salidas: seq<Salida>, id: Option<string>): (r: seq<Salida>)
    ensures |r| <= |salidas|
    ensures forall k :: 0 <= k < |r| ==> r[k].id != id
  {
    if |salidas| == 0 then []
    else
      var rest := Removed(salidas[..|salidas| - 1], id);
      var last := salidas[|salidas| - 1];
      if last.id == id then rest else rest + [last]
  }

  /** A trip stays exactly when it does not carry the id. */
  lemma {:induction false} RemovedMembers(salidas: seq<Salida>, id: Option<string>, x: Salida)
    ensures x in Removed(salidas, id) <==> x in salidas && x.id != id
  {
    if |salidas| > 0 {
      var init := salidas[..|salidas| - 1];
      RemovedMembers(init, id, x);
      assert salidas == init + [salidas[|salidas| - 1]];
    }
  }

  /** How many trips carry the id. */
  function CountId(salidas: seq<Salida>, id: Option<string>): nat {
    if |salidas| == 0 then 0
    else CountId(salidas[..|salidas| - 1], id) + (if salidas[|salidas| - 1].id == id then 1 else 0)
  }

  /** Removing drops exactly the trips with the id. */
  lemma {:induction false} RemovedCount(salidas: seq<Salida>, id: Option<string>)
    ensures |Removed(salidas, id)| == |salidas| - CountId(salidas, id)
  {
    if |salidas| > 0 {
      RemovedCount(salidas[..|salidas| - 1], id);
    }
  }

  /** Removing keeps the order of the rest: it works piece by piece. */
  lemma {:induction false} RemovedAppend(a: seq<Salida>, b: seq<Salida>, id: Option<string>)
    ensures Removed(a + b, id) == Removed(a, id) + Removed(b, id)
  {
    if |b| == 0 {
      assert a + b == a;
    } else {
      assert (a + b)[..|a + b| - 1] == a + b[..|b| - 1];
      RemovedAppend(a, b[..|b| - 1], id);
    }
  }

  /** A list without the id is left as it is. */
  lemma {:induction false} RemovedNone(salidas: seq<Salida>, id: Option<string>)
    requires forall k :: 0 <= k < |salidas| ==> salidas[k].id != id
    ensures Removed(salidas, id) == salidas
  {
    if |salidas| > 0 {
      var init := salidas[..|salidas| - 1];
      RemovedNone(init, id);
      assert Removed(salidas, id) == init + [salidas[|salidas| - 1]];
      assert init + [salidas[|salidas| - 1]] == salidas;
    }
  }

  /** The property `updateSalida` sets, with its new value. */
  datatype SalidaUpdate = SetId(id: Option<string>) | SetText(field: TextField, value: string) | SetNum(num: Num)

  /** `{ ...s, [key]: value }`. */
  function Apply(s: Salida, u: SalidaUpdate): (r: Salida)
    ensures u.SetId? ==> r == s.(id := u.id)
    ensures u.SetNum? ==> r == s.(numComponentes := u.num)
    ensures u.SetText? ==> r.id == s.id && r.numComponentes == s.numComponentes
                           && forall f :: Get(r, f) == if f == u.field then u.value else Get(s, f)
  {
    match u
    case SetId(x) => s.(id := x)
    case SetNum(x) => s.(numComponentes := x)
    case SetText(f, x) =>
      match f
      case TerminoMunicipal => s.(terminoMunicipal := x)
      case HMovilizacion => s.(hMovilizacion := x)
      case HSalida => s.(hSalida := x)
      case HLlegadaInc => s.(hLlegadaInc := x)
      case HRegreso => s.(hRegreso := x)
      case HLlegadaBase => s.(hLlegadaBase := x)
  }

  /** A trip is determined by its id, its count and its text properties. */
  lemma SalidaExt(s: Salida, t: Salida)
    requires s.id == t.id && s.numComponentes == t.numComponentes && forall f :: Get(s, f) == Get(t, f)
    ensures s == t
  {
    assert Get(s, TerminoMunicipal) == Get(t, TerminoMunicipal);
    assert Get(s, HMovilizacion) == Get(t, HMovilizacion);
    assert Get(s, HSalida) == Get(t, HSalida);
    assert Get(s, HLlegadaInc) == Get(t, HLlegadaInc);
    assert Get(s, HRegreso) == Get(t, HRegreso);
    assert Get(s, HLlegadaBase) == Get(t, HLlegadaBase);
  }

  /** `prev.map(s => s.id === id ? { ...s, [key]: value } : s)`. */
  function Updated(salidas: seq<Salida>, id: Option<string>, u: SalidaUpdate): (r: seq<Salida>)
    ensures |r| == |salidas|
    ensures forall k :: 0 <= k < |r| ==> r[k] == if salidas[k].id == id then Apply(salidas[k], u) else salidas[k]
  {
    seq(|salidas|, k requires 0 <= k < |salidas| =>
          if salidas[k].id == id then Apply(salidas[k], u) else salidas[k])
  }

  /** Setting a property twice keeps only the second value. */
  lemma UpdatedTwice(salidas: seq<Salida>, id: string, f: TextField, v1: string, v2: string)
    ensures Updated(Updated(salidas, Some(id), SetText(f, v1)), Some(id), SetText(f, v2))
            == Updated(salidas, Some(id), SetText(f, v2))
  {
    var a := Updated(Updated(salidas, Some(id), SetText(f, v1)), Some(id), SetText(f, v2));
    var b := Updated(salidas, Some(id), SetText(f, v2));
    forall k | 0 <= k < |salidas| ensures a[k] == b[k] {
      if salidas[k].id == Some(id) {
        SalidaExt(a[k], b[k]);
      }
    }
  }

  /** The trip page's list state. */
  class IncendiosPage {
    var salidas: seq<Salida>

    constructor ()
      ensures salidas == []
    {
      salidas := [];
    }

    /** `addSalida()`; `freshId` stands for `crypto.randomUUID()`. */
    method AddSalida(freshId: string)
      modifies this
      ensures salidas == old(salidas) + [NewSalida(freshId)]
    {
      salidas := salidas + [NewSalida(freshId)];
    }

    method RemoveSalida(id: Option<string>)
      modifies this
      ensures salidas == Removed(old(salidas), id)
    {
      salidas := Removed(salidas, id);
    }

    method UpdateSalida(id: Option<string>, u: SalidaUpdate)
      modifies this
      ensures salidas == Updated(old(salidas), id, u)
    {
      salidas := Updated(salidas, id, u);
    }
  }

  /** Adding then removing the new trip gives the list back, when its id
      is fresh. */
  lemma AddThenRemove(salidas: seq<Salida>, freshId: string)
    requires forall k :: 0 <= k < |salidas| ==> salidas[k].id != Some(freshId)
    ensures Removed(salidas + [NewSalida(freshId)], Some(freshId)) == salidas
  {
    RemovedAppend(salidas, [NewSalida(freshId)], Some(freshId));
    RemovedNone(salidas, Some(freshId));
  }

  // ------------------------------------------------------------ remote rows

  /** A row of the remote trip table as the page writes it; `None` stands
      for null. */
  datatype IncendioRow = IncendioRow(
    partePk: string,
    terminoMunicipal: Option<string>,
    hMovilizacion: Option<string>,
    hSalida: Option<string>,
    hLlegadaInc: Option<string>,
    hRegreso: Option<string>,
    hLlegadaBase: Option<string>,
    numComponentes: Option<int>)

  /** A row as read back, with the id the table gave it. */
  datatype Stored = Stored(id: string, row: IncendioRow)

  function NumToColumn(n: Num): (r: Option<int>)
    ensures r.None? <==> n == Blank
  {
    match n
    case Blank => None
    case Count(k) => Some(k)
  }

  /** The column of a remote row that holds a text property. */
  function Column(row: IncendioRow, f: TextField): Option<string> {
    match f
    case TerminoMunicipal => row.terminoMunicipal
    case HMovilizacion => row.hMovilizacion
    case HSalida => row.hSalida
    case HLlegadaInc => row.hLlegadaInc
    case HRegreso => row.hRegreso
    case HLlegadaBase => row.hLlegadaBase
  }

  /** One entry of the save payload: every empty text and a blank count are
      sent as null, everything else as it is. */
  function ToRow(pk: string, s: Salida): (r: IncendioRow)
    ensures r.partePk == pk
    ensures forall f :: Parte.Carries(Column(r, f), Get(s, f))
    ensures r.numComponentes.None? <==> s.numComponentes == Blank
    ensures s.numComponentes.Count? ==> r.numComponentes == Some(s.numComponentes.n)
  {
    IncendioRow(pk, Parte.NullIfEmpty(s.terminoMunicipal), Parte.NullIfEmpty(s.hMovilizacion),
                Parte.NullIfEmpty(s.hSalida), Parte.NullIfEmpty(s.hLlegadaInc),
                Parte.NullIfEmpty(s.hRegreso), Parte.NullIfEmpty(s.hLlegadaBase),
                NumToColumn(s.numComponentes))
  }

  /** The load mapping of one stored row: the trip takes the table's id, a
      null text reads as empty and a null count as blank. */
  function FromRow(st: Stored): (r: Salida)
    ensures r.id == Some(st.id)
    ensures forall f :: Parte.ReadsAs(Column(st.row, f), Get(r, f))
    ensures r.numComponentes == Blank <==> st.row.numComponentes.None?
    ensures st.row.numComponentes.Some? ==> r.numComponentes == Count(st.row.numComponentes.value)
  {
    var r := st.row;
    Salida(Some(st.id), r.terminoMunicipal.GetOr(""), r.hMovilizacion.GetOr(""), r.hSalida.GetOr(""),
           r.hLlegadaInc.GetOr(""), r.hRegreso.GetOr(""), r.hLlegadaBase.GetOr(""),
           match r.numComponentes case None => Blank case Some(k) => Count(k))
  }

  /** What `saveSupabase` does. */
  datatype SaveOutcome =
    | NotConfigured
    | NoParte
      /** Delete the roll's rows, then insert `rows` (nothing when empty). */
    | Replace(pk: string, rows: seq<IncendioRow>)

  function Save(hasSupabase: bool, partePk: Option<string>, salidas: seq<Salida>): (r: SaveOutcome)
    ensures r == NotConfigured <==> !hasSupabase
    ensures r == NoParte <==> hasSupabase && !HasParte(partePk)
    ensures r.Replace? ==> r.pk == partePk.value && |r.rows| == |salidas|
                           && forall k :: 0 <= k < |salidas| ==> r.rows[k] == ToRow(r.pk, salidas[k])
  {
    if !hasSupabase then NotConfigured
    else if !HasParte(partePk) then NoParte
    else Replace(partePk.value, seq(|salidas|, k requires 0 <= k < |salidas| => ToRow(partePk.value, salidas[k])))
  }

  function Load(stored: seq<Stored>): (r: seq<Salida>)
    ensures |r| == |stored|
    ensures forall k :: 0 <= k < |r| ==> r[k].id == Some(stored[k].id)
  {
    seq(|stored|, k requires 0 <= k < |stored| => FromRow(stored[k]))
  }

  /** Reading a saved trip back gives the trip, with the table's id. */
  lemma RowRoundTrip(pk: string, s: Salida, id: string)
    ensures FromRow(Stored(id, ToRow(pk, s))) == s.(id := Some(id))
  {
  }

  /** Loading the rows a save wrote gives back the trips, in order, each
      with the id the table gave it. */
  lemma {:induction false} SaveThenLoad(partePk: string, salidas: seq<Salida>, ids: seq<string>)
    requires partePk != "" && |ids| == |salidas|
    ensures var r := Save(true, Some(partePk), salidas);
            r.Replace? &&
            Load(seq(|ids|, k requires 0 <= k < |ids| => Stored(ids[k], r.rows[k])))
              == seq(|salidas|, k requires 0 <= k < |salidas| => salidas[k].(id := Some(ids[k])))
  {
    var r := Save(true, Some(partePk), salidas);
    forall k | 0 <= k < |salidas| ensures FromRow(Stored(ids[k], r.rows[k])) == salidas[k].(id := Some(ids[k])) {
      RowRoundTrip(partePk, salidas[k], ids[k]);
    }
  }
}
