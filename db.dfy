/** The selection context each stored row carries (src/lib/db.ts): the
    current selection projected onto the row's columns. */
module Db {
  import opened Wrappers
  import opened Selection

  /** The context columns of a row; `None` stands for a null column. */
  datatype RowContext = RowContext(
    sessionKey: string,
    provincia: Option<string>,
    zona: Option<string>,
    municipio: Option<string>,
    tipo: Tipo,
    unidad: Option<string>,
    caseta: Option<string>,
    nombreCentro: Option<string>,
    fecha: Option<string>)

  /** `x ?? null` on an optional, nullable text. */
  function OrNull(f: Field): (r: Option<string>)
    ensures f.Value? <==> r.Some?
    ensures f.Value? ==> r.value == f.s
  {
    match f
    case Value(s) => Some(s)
    case _ => None
  }

  /** `selectionToContext(sel)`. */
  function SelectionToContext(sel: CurrentSelection): (r: RowContext)
    ensures r.sessionKey == sel.sessionKey && r.tipo == sel.tipo
    ensures r.provincia == OrNull(sel.provincia) && r.zona == OrNull(sel.zona)
    ensures r.municipio == OrNull(sel.municipio)
    ensures r.nombreCentro == OrNull(sel.nombreCentro) && r.fecha == OrNull(sel.fechaISO)
    ensures r.unidad == Some(sel.seleccion) <==> sel.tipo == Unidad
    ensures r.caseta == Some(sel.seleccion) <==> sel.tipo == Caseta
    ensures r.unidad.Some? != r.caseta.Some?
  {
    RowContext(
      sel.sessionKey,
      OrNull(sel.provincia),
      OrNull(sel.zona),
      OrNull(sel.municipio),
      sel.tipo,
      if sel.tipo == Unidad then Some(sel.seleccion) else None,
      if sel.tipo == Caseta then Some(sel.seleccion) else None,
      OrNull(sel.nombreCentro),
      OrNull(sel.fechaISO))
  }

  /** Reads a nullable column back as an optional property, null for null. */
  function FromColumn(c: Option<string>): (r: Field)
    ensures r != Absent
  {
    match c
    case Some(s) => Value(s)
    case None => Null
  }

  /** The selection a row context came from, with every missing property
      read back as null. */
  function ContextToSelection(ctx: RowContext): (r: Option<CurrentSelection>)
  {
    var seleccion := if ctx.tipo == Unidad then ctx.unidad else ctx.caseta;
    match seleccion
    case None => None
    case Some(s) =>
      Some(CurrentSelection(ctx.sessionKey, FromColumn(ctx.provincia), FromColumn(ctx.zona),
                            FromColumn(ctx.municipio), ctx.tipo, s,
                            FromColumn(ctx.nombreCentro), FromColumn(ctx.fecha)))
  }

  /** Absent and null are the same once written to a column. */
  function Collapse(f: Field): Field {
    if f == Absent then Null else f
  }

  /** The context keeps everything in the selection except the difference
      between an absent and a null property. */
  lemma ContextRoundTrip(sel: CurrentSelection)
    ensures ContextToSelection(SelectionToContext(sel)) ==
      Some(CurrentSelection(sel.sessionKey, Collapse(sel.provincia), Collapse(sel.zona),
                            Collapse(sel.municipio), sel.tipo, sel.seleccion,
                            Collapse(sel.nombreCentro), Collapse(sel.fechaISO)))
  {
  }

  /** Two selections have the same context exactly when they agree once
      absent properties are read as null. */
  lemma ContextInjective(a: CurrentSelection, b: CurrentSelection)
    ensures SelectionToContext(a) == SelectionToContext(b) <==>
      (a.sessionKey == b.sessionKey && a.tipo == b.tipo && a.seleccion == b.seleccion
       && Collapse(a.provincia) == Collapse(b.provincia) && Collapse(a.zona) == Collapse(b.zona)
       && Collapse(a.municipio) == Collapse(b.municipio)
       && Collapse(a.nombreCentro) == Collapse(b.nombreCentro)
       && Collapse(a.fechaISO) == Collapse(b.fechaISO))
  {
    if SelectionToContext(a) == SelectionToContext(b) {
      ContextRoundTrip(a);
      ContextRoundTrip(b);
    }
  }
}
