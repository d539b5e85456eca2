/** The current session selection (src/lib/selection.ts): one JSON record
    kept in the browser's local store under a fixed key. Writing it keeps
    the session key already stored, so a session keeps its identity across
    overwrites. */
module Selection {
  import opened Wrappers
  import opened Json
  import Storage

  /** The one store entry this module reads and writes. */
  const Key := "cuadernillo.currentSelection"

  datatype Tipo = Unidad | Caseta

  function TipoName(t: Tipo): string {
    match t
    case Unidad => "unidad"
    case Caseta => "caseta"
  }

  /** An optional property that may also be null: `x?: string | null`. */
  datatype Field = Absent | Null | Value(s: string)

  /** What the caller hands to `setCurrentSelection`: every property but the
      session key. */
  datatype SelectionFields = SelectionFields(
    provincia: Field,
    zona: Field,
    municipio: Field,
    tipo: Tipo,
    seleccion: string,
    nombreCentro: Field,
    fechaISO: Field)

  datatype CurrentSelection = CurrentSelection(
    sessionKey: string,
    provincia: Field,
    zona: Field,
    municipio: Field,
    tipo: Tipo,
    seleccion: string,
    nombreCentro: Field,
    fechaISO: Field)

  /** `{ sessionKey, ...sel }`. */
  function Stamp(sessionKey: string, f: SelectionFields): (r: CurrentSelection)
    ensures r.sessionKey == sessionKey && r.tipo == f.tipo && r.seleccion == f.seleccion
    ensures r.provincia == f.provincia && r.zona == f.zona && r.municipio == f.municipio
    ensures r.nombreCentro == f.nombreCentro && r.fechaISO == f.fechaISO
  {
    CurrentSelection(sessionKey, f.provincia, f.zona, f.municipio, f.tipo, f.seleccion,
                     f.nombreCentro, f.fechaISO)
  }

  // ------------------------------------------------------------ JSON form

  /** One property of the record before it is written: its name and its
      JSON value, none when the property is absent. */
  datatype Entry = Entry(name: string, json: Option<Json>)

  /** An optional property as `JSON.stringify` writes it: an absent one is
      left out, a null one is written as null. */
  function FieldJson(f: Field): Option<Json> {
    match f
    case Absent => None
    case Null => Some(JNull)
    case Value(s) => Some(JStr(s))
  }

  /** The properties of `{ sessionKey, ...sel }` in the order they are written. */
  function Entries(sel: CurrentSelection): seq<Entry> {
    [Entry("sessionKey", Some(JStr(sel.sessionKey))),
     Entry("provincia", FieldJson(sel.provincia)),
     Entry("zona", FieldJson(sel.zona)),
     Entry("municipio", FieldJson(sel.municipio)),
     Entry("tipo", Some(JStr(TipoName(sel.tipo)))),
     Entry("seleccion", Some(JStr(sel.seleccion))),
     Entry("nombreCentro", FieldJson(sel.nombreCentro)),
     Entry("fechaISO", FieldJson(sel.fechaISO))]
  }

  /** The object members written for a list of properties, skipping the
      absent ones. */
  function Members(es: seq<Entry>): seq<Member> {
    if |es| == 0 then []
    else
      var e := es[|es| - 1];
      Members(es[..|es| - 1]) + (if e.json.Some? then [Member(e.name, e.json.value)] else [])
  }

  /** `JSON.stringify` of the selection: an object in which every property
      reads as the selection has it, an absent one as missing. */
  function Encode(sel: CurrentSelection): (r: Json)
    ensures r.JObj?
    ensures Lookup(r.members, "sessionKey") == Some(JStr(sel.sessionKey))
    ensures Lookup(r.members, "tipo") == Some(JStr(TipoName(sel.tipo)))
    ensures Lookup(r.members, "seleccion") == Some(JStr(sel.seleccion))
    ensures Lookup(r.members, "provincia") == FieldJson(sel.provincia)
    ensures Lookup(r.members, "zona") == FieldJson(sel.zona)
    ensures Lookup(r.members, "municipio") == FieldJson(sel.municipio)
    ensures Lookup(r.members, "nombreCentro") == FieldJson(sel.nombreCentro)
    ensures Lookup(r.members, "fechaISO") == FieldJson(sel.fechaISO)
  {
    ReadEntries(sel, Members(Entries(sel)));
    JObj(Members(Entries(sel)))
  }

  function DecodeField(j: Option<Json>): (r: Option<Field>)
    ensures r.Some? ==> FieldJson(r.value) == j
  {
    match j
    case None => Some(Absent)
    case Some(JNull) => Some(Null)
    case Some(JStr(s)) => Some(Value(s))
    case Some(_) => None
  }

  function DecodeTipo(j: Option<Json>): (r: Option<Tipo>)
    ensures r.Some? ==> j == Some(JStr(TipoName(r.value)))
  {
    match j
    case Some(JStr(s)) =>
      if s == "unidad" then Some(Unidad) else if s == "caseta" then Some(Caseta) else None
    case _ => None
  }

  function DecodeText(j: Option<Json>): (r: Option<string>)
    ensures r.Some? ==> j == Some(JStr(r.value))
  {
    match j
    case Some(JStr(s)) => Some(s)
    case _ => None
  }

  /** Reads a parsed JSON value as a selection; a value of another shape
      reads as none. A selection read has, as each property, what the
      object holds under that name. */
  function Decode(j: Json): (r: Option<CurrentSelection>)
    ensures r.Some? ==> j.JObj?
    ensures r.Some? ==> Lookup(j.members, "sessionKey") == Some(JStr(r.value.sessionKey))
                        && Lookup(j.members, "tipo") == Some(JStr(TipoName(r.value.tipo)))
                        && Lookup(j.members, "seleccion") == Some(JStr(r.value.seleccion))
    ensures r.Some? ==> Lookup(j.members, "provincia") == FieldJson(r.value.provincia)
                        && Lookup(j.members, "zona") == FieldJson(r.value.zona)
                        && Lookup(j.members, "municipio") == FieldJson(r.value.municipio)
                        && Lookup(j.members, "nombreCentro") == FieldJson(r.value.nombreCentro)
                        && Lookup(j.members, "fechaISO") == FieldJson(r.value.fechaISO)
  {
    match j
    case JObj(ms) =>
      var key := DecodeText(Lookup(ms, "sessionKey"));
      var provincia := DecodeField(Lookup(ms, "provincia"));
      var zona := DecodeField(Lookup(ms, "zona"));
      var municipio := DecodeField(Lookup(ms, "municipio"));
      var tipo := DecodeTipo(Lookup(ms, "tipo"));
      var seleccion := DecodeText(Lookup(ms, "seleccion"));
      var nombreCentro := DecodeField(Lookup(ms, "nombreCentro"));
      var fechaISO := DecodeField(Lookup(ms, "fechaISO"));
      if key.Some? && provincia.Some? && zona.Some? && municipio.Some? && tipo.Some?
         && seleccion.Some? && nombreCentro.Some? && fechaISO.Some?
      then Some(CurrentSelection(key.value, provincia.value, zona.value, municipio.value,
                                 tipo.value, seleccion.value, nombreCentro.value, fechaISO.value))
      else None
    case _ => None
  }

  /** Lookup in a member list split in two: the later part wins. */
  lemma LookupAppend(a: seq<Member>, b: seq<Member>, key: string)
    ensures Lookup(a + b, key) == if Lookup(b, key).Some? then Lookup(b, key) else Lookup(a, key)
  {
    if |b| > 0 {
      assert (a + b)[..|a + b| - 1] == a + b[..|b| - 1];
      if b[|b| - 1].key != key {
        LookupAppend(a, b[..|b| - 1], key);
      }
    } else {
      assert a + b == a;
    }
  }

  /** A name no property carries is not among the written members. */
  lemma {:induction false} LookupUnnamed(es: seq<Entry>, key: string)
    requires forall i :: 0 <= i < |es| ==> es[i].name != key
    ensures Lookup(Members(es), key) == None
  {
    if |es| > 0 {
      LookupUnnamed(es[..|es| - 1], key);
    }
  }

  predicate DistinctNames(es: seq<Entry>) {
    forall a, b :: 0 <= a < b < |es| ==> es[a].name != es[b].name
  }

  /** With distinct names, each property reads back as it was written. */
  lemma {:induction false} LookupEntry(es: seq<Entry>, j: nat)
    requires j < |es| && DistinctNames(es)
    ensures Lookup(Members(es), es[j].name) == es[j].json
  {
    var init := es[..|es| - 1];
    if j == |es| - 1 {
      if es[j].json.None? {
        LookupUnnamed(init, es[j].name);
      }
    } else {
      var e := es[|es| - 1];
      assert init[j] == es[j] && e.name != es[j].name;
      LookupEntry(init, j);
      LookupAppend(Members(init), if e.json.Some? then [Member(e.name, e.json.value)] else [], es[j].name);
    }
  }

  lemma EntriesDistinct(sel: CurrentSelection)
    ensures DistinctNames(Entries(sel))
  {
  }

  lemma FieldRead(f: Field)
    ensures DecodeField(FieldJson(f)) == Some(f)
  {
  }

  /** Each property of the written record reads back as written. */
  lemma ReadEntries(sel: CurrentSelection, ms: seq<Member>)
    requires ms == Members(Entries(sel))
    ensures Lookup(ms, "sessionKey") == Some(JStr(sel.sessionKey))
    ensures Lookup(ms, "provincia") == FieldJson(sel.provincia)
    ensures Lookup(ms, "zona") == FieldJson(sel.zona)
    ensures Lookup(ms, "municipio") == FieldJson(sel.municipio)
    ensures Lookup(ms, "tipo") == Some(JStr(TipoName(sel.tipo)))
    ensures Lookup(ms, "seleccion") == Some(JStr(sel.seleccion))
    ensures Lookup(ms, "nombreCentro") == FieldJson(sel.nombreCentro)
    ensures Lookup(ms, "fechaISO") == FieldJson(sel.fechaISO)
  {
    var es := Entries(sel);
    EntriesDistinct(sel);
    LookupEntry(es, 0);
    LookupEntry(es, 1);
    LookupEntry(es, 2);
    LookupEntry(es, 3);
    LookupEntry(es, 4);
    LookupEntry(es, 5);
    LookupEntry(es, 6);
    LookupEntry(es, 7);
  }

  /** An object whose properties read as those of `sel` decodes as `sel`. */
  lemma DecodeFromLookups(sel: CurrentSelection, ms: seq<Member>)
    requires Lookup(ms, "sessionKey") == Some(JStr(sel.sessionKey))
    requires Lookup(ms, "provincia") == FieldJson(sel.provincia)
    requires Lookup(ms, "zona") == FieldJson(sel.zona)
    requires Lookup(ms, "municipio") == FieldJson(sel.municipio)
    requires Lookup(ms, "tipo") == Some(JStr(TipoName(sel.tipo)))
    requires Lookup(ms, "seleccion") == Some(JStr(sel.seleccion))
    requires Lookup(ms, "nombreCentro") == FieldJson(sel.nombreCentro)
    requires Lookup(ms, "fechaISO") == FieldJson(sel.fechaISO)
    ensures Decode(JObj(ms)) == Some(sel)
  {
    FieldRead(sel.provincia);
    FieldRead(sel.zona);
    FieldRead(sel.municipio);
    FieldRead(sel.nombreCentro);
    FieldRead(sel.fechaISO);
    assert DecodeTipo(Some(JStr(TipoName(sel.tipo)))) == Some(sel.tipo);
  }

  /** Decoding gives back the encoded selection. */
  lemma DecodeEncode(sel: CurrentSelection)
    ensures Decode(Encode(sel)) == Some(sel)
  {
    DecodeFromLookups(sel, Encode(sel).members);
  }

  // ------------------------------------------------------------ the store

  /** `getCurrentSelection`: none when the key is absent or holds empty
      text, none when the text does not parse as a selection. */
  function Get(store: map<string, string>): (r: Option<CurrentSelection>)
    ensures r.Some? ==> Key in store && store[Key] != "" && Parse(store[Key]).Some?
    ensures r.Some? ==> Parse(store[Key]).value.JObj?
                        && Lookup(Parse(store[Key]).value.members, "sessionKey") == Some(JStr(r.value.sessionKey))
  {
    if Key !in store || store[Key] == "" then None
    else
      match Parse(store[Key])
      case None => None
      case Some(j) => Decode(j)
  }

  /** The text `setCurrentSelection` stores. */
  function Text(sel: CurrentSelection): string {
    Serialize(Encode(sel))
  }

  /** The session key a write uses: the stored one, else the fresh one. */
  function SessionKeyFor(store: map<string, string>, freshKey: string): string {
    match Get(store)
    case Some(existing) => existing.sessionKey
    case None => freshKey
  }

  /** What `setCurrentSelection` does to the store, and what it returns. */
  function Set(store: map<string, string>, f: SelectionFields, freshKey: string): (r: (map<string, string>, CurrentSelection))
    ensures r.1 == Stamp(SessionKeyFor(store, freshKey), f)
    ensures r.0 == store[Key := Text(r.1)]
  {
    var payload := Stamp(SessionKeyFor(store, freshKey), f);
    (store[Key := Text(payload)], payload)
  }

  /** `getCurrentSelection` on a store object. */
  function GetCurrentSelection(ls: Storage.Store): (r: Option<CurrentSelection>)
    reads ls
    ensures r == Get(ls.entries)
  {
    match ls.GetItem(Key)
    case None => None
    case Some(raw) =>
      if raw == "" then None
      else
        match Parse(raw)
        case None => None
        case Some(j) => Decode(j)
  }

  /** `setCurrentSelection(sel)`; `freshKey` stands for `crypto.randomUUID()`. */
  method SetCurrentSelection(ls: Storage.Store, f: SelectionFields, freshKey: string)
    returns (payload: CurrentSelection)
    modifies ls
    ensures (ls.entries, payload) == Set(old(ls.entries), f, freshKey)
  {
    var existing := GetCurrentSelection(ls);
    var sessionKey := if existing.Some? then existing.value.sessionKey else freshKey;
    payload := Stamp(sessionKey, f);
    ls.SetItem(Key, Text(payload));
  }

  /** `clearCurrentSelection()`. */
  method ClearCurrentSelection(ls: Storage.Store)
    modifies ls
    ensures ls.entries == old(ls.entries) - {Key}
  {
    ls.RemoveItem(Key);
  }

  // ------------------------------------------------------------ properties

  /** Reading gives null when the key is missing, when it holds empty text
      and when its text does not parse. */
  lemma GetNullCases(store: map<string, string>)
    ensures Key !in store ==> Get(store) == None
    ensures Key in store && store[Key] == "" ==> Get(store) == None
    ensures Key in store && Parse(store[Key]).None? ==> Get(store) == None
  {
  }

  /** A stored selection laid out with white space around it, as an
      indented writer leaves it, still reads back. */
  lemma GetIndented(store: map<string, string>, sel: CurrentSelection, before: string, after: string)
    requires AllWs(before) && AllWs(after)
    requires Key in store && store[Key] == before + Text(sel) + after
    ensures Get(store) == Some(sel)
  {
    ParsePadded(Encode(sel), before, after);
    DecodeEncode(sel);
    assert |store[Key]| >= |Text(sel)| > 0;
  }

  /** A write keeps the stored session key; the fresh key is used only when
      no selection is stored. */
  lemma SetKeepsSessionKey(store: map<string, string>, f: SelectionFields, freshKey: string)
    ensures Get(store).Some? ==> Set(store, f, freshKey).1.sessionKey == Get(store).value.sessionKey
    ensures Get(store).None? ==> Set(store, f, freshKey).1.sessionKey == freshKey
  {
  }

  /** Reading right after a write gives exactly what the write returned. */
  lemma SetThenGet(store: map<string, string>, f: SelectionFields, freshKey: string)
    ensures Get(Set(store, f, freshKey).0) == Some(Set(store, f, freshKey).1)
  {
    var payload := Set(store, f, freshKey).1;
    ParseSerialize(Encode(payload));
    DecodeEncode(payload);
  }

  /** Two writes in a row store the same session key, whatever the fresh
      keys offered. */
  lemma TwoSetsShareSessionKey(store: map<string, string>, f1: SelectionFields, f2: SelectionFields,
                               k1: string, k2: string)
    ensures Set(Set(store, f1, k1).0, f2, k2).1.sessionKey == Set(store, f1, k1).1.sessionKey
  {
    SetThenGet(store, f1, k1);
  }

  /** Reading after a clear gives null. */
  lemma ClearThenGet(store: map<string, string>)
    ensures Get(store - {Key}) == None
  {
  }

  /** Writing and clearing touch no other entry. */
  lemma OnlyKeyTouched(store: map<string, string>, f: SelectionFields, freshKey: string, other: string)
    requires other != Key
    ensures other in Set(store, f, freshKey).0 <==> other in store
    ensures other in store ==> Set(store, f, freshKey).0[other] == store[other]
    ensures other in store - {Key} <==> other in store
    ensures other in store ==> (store - {Key})[other] == store[other]
  {
  }
}
