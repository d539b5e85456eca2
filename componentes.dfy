/** The component roster as the pages keep it in the browser's local store:
    a JSON array of `{ id, nombre, apellidos, numero? }` records, written by
    the roster page (src/pages/Page3.tsx) and read by the daily roll page
    (src/pages/Page2.tsx). */
module Componentes {
  import opened Wrappers
  import opened Json

  /** The key the roster page always writes. */
  const Canonical := "cuadernillo.componentes"
  /** The keys the roster page reads, in order: the canonical one, then two
      older ones. */
  const ReadKeys := [Canonical, "cuadernilo:componentes", "infoex:componentes"]

  datatype Componente = Componente(id: string, nombre: string, apellidos: string, numero: Option<string>)

  /** A component as `JSON.stringify` writes it: an undefined `numero` is
      left out. */
  /** The properties `JSON.stringify` writes for a component, in order. */
  function Written(c: Componente): seq<Member> {
    [Member("id", JStr(c.id)), Member("nombre", JStr(c.nombre)), Member("apellidos", JStr(c.apellidos))]
    + match c.numero case None => [] case Some(n) => [Member("numero", JStr(n))]
  }

  lemma WrittenRead(c: Componente)
    ensures Lookup(Written(c), "id") == Some(JStr(c.id))
    ensures Lookup(Written(c), "nombre") == Some(JStr(c.nombre))
    ensures Lookup(Written(c), "apellidos") == Some(JStr(c.apellidos))
    ensures Lookup(Written(c), "numero") == match c.numero case None => None case Some(n) => Some(JStr(n))
  {
    var ms := Written(c);
    var m0, m1, m2 := Member("id", JStr(c.id)), Member("nombre", JStr(c.nombre)), Member("apellidos", JStr(c.apellidos));
    assert ms[..3] == [m0, m1, m2];
    assert [m0, m1, m2][..2] == [m0, m1] && [m0, m1][..1] == [m0];
    assert Lookup([m0, m1], "id") == Lookup([m0], "id") == Some(JStr(c.id));
    assert Lookup([m0, m1, m2], "id") == Lookup([m0, m1], "id");
    assert Lookup([m0, m1, m2], "nombre") == Lookup([m0, m1], "nombre") == Some(JStr(c.nombre));
    assert Lookup([m0], "numero") == Lookup([m0][..0], "numero");
    if |ms| == 4 {
      assert ms[..|ms| - 1] == [m0, m1, m2];
      assert ms[3] == Member("numero", JStr(c.numero.value));
      assert Lookup(ms, "id") == Lookup([m0, m1, m2], "id");
      assert Lookup(ms, "nombre") == Lookup([m0, m1, m2], "nombre");
      assert Lookup(ms, "apellidos") == Lookup([m0, m1, m2], "apellidos");
    } else {
      assert ms == [m0, m1, m2];
    }
  }

  /** `JSON.stringify` of a component: an object whose id, nombre and
      apellidos read as the component's, and whose numero is present exactly
      when the component has one. */
  function ToJson(c: Componente): (r: Json)
    ensures r.JObj?
    ensures Lookup(r.members, "id") == Some(JStr(c.id))
    ensures Lookup(r.members, "nombre") == Some(JStr(c.nombre))
    ensures Lookup(r.members, "apellidos") == Some(JStr(c.apellidos))
    ensures Lookup(r.members, "numero").None? <==> c.numero.None?
    ensures c.numero.Some? ==> Lookup(r.members, "numero") == Some(JStr(c.numero.value))
  {
    WrittenRead(c);
    JObj(Written(c))
  }

  function TextOf(j: Option<Json>): (r: Option<string>)
    ensures r.Some? ==> j == Some(JStr(r.value))
  {
    match j
    case Some(JStr(s)) => Some(s)
    case _ => None
  }

  /** Reads a parsed value as a component; any other shape reads as none. */
  function FromJson(j: Json): (r: Option<Componente>)
    ensures r.Some? ==> j.JObj?
    ensures r.Some? ==> Lookup(j.members, "id") == Some(JStr(r.value.id))
                        && Lookup(j.members, "nombre") == Some(JStr(r.value.nombre))
                        && Lookup(j.members, "apellidos") == Some(JStr(r.value.apellidos))
    ensures r.Some? ==> (r.value.numero.None? <==> Lookup(j.members, "numero").None?)
    ensures r.Some? && r.value.numero.Some? ==> Lookup(j.members, "numero") == Some(JStr(r.value.numero.value))
  {
    match j
    case JObj(ms) =>
      var id := TextOf(Lookup(ms, "id"));
      var nombre := TextOf(Lookup(ms, "nombre"));
      var apellidos := TextOf(Lookup(ms, "apellidos"));
      var numero := Lookup(ms, "numero");
      if id.None? || nombre.None? || apellidos.None? then None
      else if numero.None? then Some(Componente(id.value, nombre.value, apellidos.value, None))
      else if numero.value.JStr? then Some(Componente(id.value, nombre.value, apellidos.value, Some(numero.value.s)))
      else None
    case _ => None
  }

  /** A written component reads back as itself. */
  lemma FromToJson(c: Componente)
    ensures FromJson(ToJson(c)) == Some(c)
  {
  }

  /** Reads the items of a parsed array, all of which must be components. */
  function FromItems(items: seq<Json>): (r: Option<seq<Componente>>)
    ensures r.Some? ==> |r.value| == |items|
  {
    if |items| == 0 then Some([])
    else
      match (FromItems(items[..|items| - 1]), FromJson(items[|items| - 1]))
      case (Some(cs), Some(c)) => Some(cs + [c])
      case _ => None
  }

  /** Appending a component to the array appends it to what is read. */
  lemma FromItemsAppend(items: seq<Json>, c: Componente)
    ensures FromItems(items + [ToJson(c)]) ==
      match FromItems(items) case Some(cs) => Some(cs + [c]) case None => None
  {
    assert (items + [ToJson(c)])[..|items|] == items;
    FromToJson(c);
  }

  /** `a || b`: the first value when it is a non-empty text. */
  function Or(a: Option<string>, b: Option<string>): Option<string> {
    if a.Some? && a.value != "" then a else b
  }

  function GetItem(store: map<string, string>, key: string): Option<string> {
    if key in store then Some(store[key]) else None
  }

  /** `getItem(k0) || getItem(k1) || getItem(k2)`. */
  function Fallback(store: map<string, string>): (r: Option<string>)
    ensures r.Some? ==> exists i :: 0 <= i < 3 && r == GetItem(store, ReadKeys[i])
    ensures (forall i :: 0 <= i < 3 ==> !Filled(store, ReadKeys[i])) ==> r == GetItem(store, ReadKeys[2])
  {
    Or(Or(GetItem(store, ReadKeys[0]), GetItem(store, ReadKeys[1])), GetItem(store, ReadKeys[2]))
  }

  predicate Filled(store: map<string, string>, key: string) {
    key in store && store[key] != ""
  }

  /** The fallback read gives the text of the first key, in order, that holds
      a non-empty text, and nothing usable when there is none. */
  lemma FallbackFirstFilled(store: map<string, string>)
    ensures forall i :: 0 <= i < 3 && Filled(store, ReadKeys[i])
              && (forall j :: 0 <= j < i ==> !Filled(store, ReadKeys[j]))
              ==> Fallback(store) == Some(store[ReadKeys[i]])
    ensures (forall i :: 0 <= i < 3 ==> !Filled(store, ReadKeys[i]))
              <==> (Fallback(store).None? || Fallback(store) == Some(""))
  {
  }

  /** Once the canonical key holds a text, the fallback read stops there. */
  lemma FallbackCanonical(store: map<string, string>)
    requires Filled(store, Canonical)
    ensures Fallback(store) == Some(store[Canonical])
  {
    assert ReadKeys[0] == Canonical;
  }

  /** What the array text under a key reads as: nothing when the text is
      missing or empty, a list when it is an array, an error (none) when it
      does not parse or is not an array. */
  function ArrayOf(raw: Option<string>): (r: Option<seq<Json>>)
    ensures raw.None? || raw == Some("") ==> r == Some([])
    ensures raw.Some? && raw.value != "" ==>
              (r.Some? <==> Parse(raw.value).Some? && Parse(raw.value).value.JArr?)
    ensures raw.Some? && raw.value != "" && r.Some? ==> Parse(raw.value) == Some(JArr(r.value))
  {
    if raw.None? || raw.value == "" then Some([])
    else
      match Parse(raw.value)
      case Some(JArr(items)) => Some(items)
      case _ => None
  }

  /** A stored roster laid out with white space around it still reads as
      the same array. */
  lemma ArrayOfIndented(items: seq<Json>, before: string, after: string)
    requires AllWs(before) && AllWs(after)
    ensures ArrayOf(Some(before + Serialize(JArr(items)) + after)) == Some(items)
  {
    ParsePadded(JArr(items), before, after);
    assert |before + Serialize(JArr(items)) + after| >= |Serialize(JArr(items))| > 0;
  }
}
