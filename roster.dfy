/** The roster page (src/pages/Page3.tsx): it validates a new component,
    reads the stored roster from the first of three keys that holds one,
    appends the component and writes the roster back under the canonical
    key. */
module Roster {
  import opened Wrappers
  import opened Text
  import opened Json
  import opened Componentes
  import Storage
  import Parte

  /** `puedeCrear`: both names hold something besides white space. */
  function PuedeCrear(nombre: string, apellidos: string): (r: bool)
    ensures r <==> !AllSpace(nombre) && !AllSpace(apellidos)
  {
    TrimEmptyIffBlank(nombre);
    TrimEmptyIffBlank(apellidos);
    Trim(nombre) != "" && Trim(apellidos) != ""
  }

  /** `nuevo`: the trimmed names, and the trimmed number unless it is blank;
      `id` stands for `crypto.randomUUID()`. */
  function NewComponente(id: string, nombre: string, apellidos: string, numero: string): (r: Componente)
    ensures r.id == id && r.nombre == Trim(nombre) && r.apellidos == Trim(apellidos)
    ensures r.numero.None? <==> AllSpace(numero)
    ensures r.numero.Some? ==> r.numero.value == Trim(numero)
  {
    TrimEmptyIffBlank(numero);
    Componente(id, Trim(nombre), Trim(apellidos), if Trim(numero) == "" then None else Some(Trim(numero)))
  }

  /** What `crear` does to the store: none when the stored roster text does
      not parse as an array (the page throws and writes nothing). */
  function Created(store: map<string, string>, id: string, nombre: string, apellidos: string, numero: string)
    : (r: Option<map<string, string>>)
    ensures r.None? <==> ArrayOf(Fallback(store)).None?
    ensures r.Some? ==> r.value == store[Canonical := Serialize(JArr(ArrayOf(Fallback(store)).value
                                      + [ToJson(NewComponente(id, nombre, apellidos, numero))]))]
  {
    match ArrayOf(Fallback(store))
    case None => None
    case Some(items) =>
      Some(store[Canonical := Serialize(JArr(items + [ToJson(NewComponente(id, nombre, apellidos, numero))]))])
  }

  /** The first read in `crear()`: the three keys in turn, stopping at the
      first that holds a non-empty text. */
  method ReadFallback(ls: Storage.Store) returns (raw: Option<string>)
    ensures raw == Fallback(ls.entries)
  {
    raw := ls.GetItem(ReadKeys[0]);
    assert raw == GetItem(ls.entries, ReadKeys[0]);
    if raw.None? || raw.value == "" {
      raw := ls.GetItem(ReadKeys[1]);
      assert raw == GetItem(ls.entries, ReadKeys[1]);
      if raw.None? || raw.value == "" {
        raw := ls.GetItem(ReadKeys[2]);
        assert raw == GetItem(ls.entries, ReadKeys[2]);
      }
    }
  }

  /** `crear()` on the page's store; it reports whether it wrote. */
  method Crear(ls: Storage.Store, freshId: string, nombre: string, apellidos: string, numero: string)
    returns (ok: bool)
    modifies ls
    ensures ok <==> Created(old(ls.entries), freshId, nombre, apellidos, numero).Some?
    ensures ok ==> ls.entries == Created(old(ls.entries), freshId, nombre, apellidos, numero).value
    ensures !ok ==> ls.entries == old(ls.entries)
  {
    var nuevo := NewComponente(freshId, nombre, apellidos, numero);
    var raw := ReadFallback(ls);
    var arr := ArrayOf(raw);
    if arr.None? {
      return false;
    }
    ls.SetItem(Canonical, Serialize(JArr(arr.value + [ToJson(nuevo)])));
    ok := true;
  }

  /** The roster written is the roster read with the new component at the
      end: one longer, the earlier entries unchanged and in order. */
  lemma CreatedAppends(store: map<string, string>, id: string, nombre: string, apellidos: string, numero: string)
    requires ArrayOf(Fallback(store)).Some?
    ensures var items := ArrayOf(Fallback(store)).value;
            var after := Created(store, id, nombre, apellidos, numero).value;
            Canonical in after
            && Parse(after[Canonical]) == Some(JArr(items + [ToJson(NewComponente(id, nombre, apellidos, numero))]))
  {
    var items := ArrayOf(Fallback(store)).value;
    ParseSerialize(JArr(items + [ToJson(NewComponente(id, nombre, apellidos, numero))]));
  }

  /** After a creation the fallback read finds the roster just written. */
  lemma CreatedReadsBack(store: map<string, string>, id: string, nombre: string, apellidos: string, numero: string)
    requires ArrayOf(Fallback(store)).Some?
    ensures var after := Created(store, id, nombre, apellidos, numero).value;
            ArrayOf(Fallback(after))
              == Some(ArrayOf(Fallback(store)).value + [ToJson(NewComponente(id, nombre, apellidos, numero))])
  {
    var after := Created(store, id, nombre, apellidos, numero).value;
    CreatedAppends(store, id, nombre, apellidos, numero);
    FallbackCanonical(after);
  }

  /** With no roster stored under any of the three keys, the written roster
      holds the new component alone. */
  lemma CreatedFromNothing(store: map<string, string>, id: string, nombre: string, apellidos: string, numero: string)
    requires forall i :: 0 <= i < 3 ==> !Filled(store, ReadKeys[i])
    ensures var after := Created(store, id, nombre, apellidos, numero);
            after.Some? && Canonical in after.value
            && Parse(after.value[Canonical]) == Some(JArr([ToJson(NewComponente(id, nombre, apellidos, numero))]))
  {
    assert ArrayOf(Fallback(store)) == Some([]) by {
      FallbackFirstFilled(store);
    }
    CreatedAppends(store, id, nombre, apellidos, numero);
    var j := ToJson(NewComponente(id, nombre, apellidos, numero));
    assert [] + [j] == [j];
  }

  /** A roster found with white space around it, as an indented writer
      leaves it, is appended to like any other. */
  lemma CreatedFromIndented(store: map<string, string>, items: seq<Json>, before: string, after: string,
                            id: string, nombre: string, apellidos: string, numero: string)
    requires AllWs(before) && AllWs(after)
    requires Fallback(store) == Some(before + Serialize(JArr(items)) + after)
    ensures var r := Created(store, id, nombre, apellidos, numero);
            r.Some? && Canonical in r.value
            && Parse(r.value[Canonical]) == Some(JArr(items + [ToJson(NewComponente(id, nombre, apellidos, numero))]))
  {
    ArrayOfIndented(items, before, after);
    CreatedAppends(store, id, nombre, apellidos, numero);
  }

  /** Only the canonical key is written; the two older keys and every
      other entry keep their text. */
  lemma CreatedOnlyCanonical(store: map<string, string>, id: string, nombre: string, apellidos: string, numero: string,
                             key: string)
    requires Created(store, id, nombre, apellidos, numero).Some? && key != Canonical
    ensures var after := Created(store, id, nombre, apellidos, numero).value;
            (key in after <==> key in store) && (key in store ==> after[key] == store[key])
  {
  }

  /** Two creations in a row leave both new components at the end, in the
      order they were created. */
  lemma CreatedTwice(store: map<string, string>, id1: string, id2: string, nombre1: string, apellidos1: string,
                     numero1: string, nombre2: string, apellidos2: string, numero2: string)
    requires ArrayOf(Fallback(store)).Some?
    ensures var mid := Created(store, id1, nombre1, apellidos1, numero1).value;
            var after := Created(mid, id2, nombre2, apellidos2, numero2);
            after.Some? && Canonical in after.value
            && Parse(after.value[Canonical]) == Some(JArr(ArrayOf(Fallback(store)).value
                 + [ToJson(NewComponente(id1, nombre1, apellidos1, numero1)),
                    ToJson(NewComponente(id2, nombre2, apellidos2, numero2))]))
  {
    var items := ArrayOf(Fallback(store)).value;
    var j1 := ToJson(NewComponente(id1, nombre1, apellidos1, numero1));
    var j2 := ToJson(NewComponente(id2, nombre2, apellidos2, numero2));
    var mid := Created(store, id1, nombre1, apellidos1, numero1).value;
    assert ArrayOf(Fallback(mid)) == Some(items + [j1]) by {
      CreatedReadsBack(store, id1, nombre1, apellidos1, numero1);
    }
    assert Parse(Created(mid, id2, nombre2, apellidos2, numero2).value[Canonical]) == Some(JArr(items + [j1] + [j2])) by {
      CreatedAppends(mid, id2, nombre2, apellidos2, numero2);
    }
    AppendTwice(items, j1, j2);
  }

  lemma AppendTwice<T>(xs: seq<T>, a: T, b: T)
    ensures xs + [a] + [b] == xs + [a, b]
  {
  }

  // ------------------------------------------------------------ findings

  /** The roll page's roster load as written ignores what the roster page
      writes: after a creation it finds what it found before. */
  lemma AsWrittenIgnoresCreation(store: map<string, string>, id: string, nombre: string, apellidos: string,
                                 numero: string)
    requires Created(store, id, nombre, apellidos, numero).Some?
    ensures Parte.LoadRosterAsWritten(Created(store, id, nombre, apellidos, numero).value)
            == Parte.LoadRosterAsWritten(store)
  {
    var after := Created(store, id, nombre, apellidos, numero).value;
    assert Componentes.GetItem(after, Parte.RosterKey) == Componentes.GetItem(store, Parte.RosterKey);
  }

  /** The roll page does not see a component created on a store holding no
      roster: it reads its roster from a key the roster page never writes,
      while the reading the roster page itself does finds the component. */
  lemma RollPageMissesNewComponent(store: map<string, string>, id: string, nombre: string, apellidos: string,
                                   numero: string)
    requires forall i :: 0 <= i < 3 ==> !Filled(store, ReadKeys[i])
    ensures var after := Created(store, id, nombre, apellidos, numero);
            after.Some?
            && Parte.LoadRosterAsWritten(after.value) == []
            && Parte.LoadRoster(after.value) == [NewComponente(id, nombre, apellidos, numero)]
  {
    FallbackFirstFilled(store);
    assert ArrayOf(Fallback(store)) == Some([]);
    AsWrittenIgnoresCreation(store, id, nombre, apellidos, numero);
    assert !Filled(store, ReadKeys[2]);
    RollPageSeesNewComponent(store, id, nombre, apellidos, numero, []);
  }

  /** Reading the roster the way the roster page does, the roll page sees
      every stored component followed by the new one. */
  lemma RollPageSeesNewComponent(store: map<string, string>, id: string, nombre: string, apellidos: string,
                                 numero: string, cs: seq<Componente>)
    requires ArrayOf(Fallback(store)).Some? && FromItems(ArrayOf(Fallback(store)).value) == Some(cs)
    ensures Parte.LoadRoster(Created(store, id, nombre, apellidos, numero).value)
            == cs + [NewComponente(id, nombre, apellidos, numero)]
  {
    var items := ArrayOf(Fallback(store)).value;
    var c := NewComponente(id, nombre, apellidos, numero);
    var after := Created(store, id, nombre, apellidos, numero).value;
    assert ArrayOf(Fallback(after)) == Some(items + [ToJson(c)]) by {
      CreatedReadsBack(store, id, nombre, apellidos, numero);
    }
    assert FromItems(items + [ToJson(c)]) == Some(cs + [c]) by {
      FromItemsAppend(items, c);
    }
  }
}
