/** `buscar_examenes` and `buscar_procedimientos` (`main.py`): the episodes
    of one patient whose date lies in a window, then the exams or procedures
    recorded in those episodes, each enriched with its episode's date. */
module Search {
  import opened Text
  import opened Records

  const ID_HISTORIA: string := "id_historia_clinica"
  const RESULTADO: string := "resultado"

  // ---------------------------------------------------------------------------
  // Selecting the episodes
  // ---------------------------------------------------------------------------

  /** `h["id_paciente"] == id_paciente and fecha_inicio <= h.get("fecha", "")
      <= fecha_fin`: the date is looked at only for the patient's own
      episodes, and comparing text with a date that is not text raises. */
  function Matches(h: Item, id: int, ini: string, fin: string): Result<bool>
  {
    match Field(h, ID_PACIENTE)
    case Err(c, d) => Err(c, d)
    case Ok(v) =>
      if v != Num(id as real) then Ok(false)
      else
        var f := GetOr(h.fields, FECHA, Str(""));
        if f.Str? then Ok(LexLe(ini, f.s) && LexLe(f.s, fin)) else Crash()
  }

  /** The episode list comprehension. */
  function SelectEpisodes(hs: seq<Item>, id: int, ini: string, fin: string): (r: Result<seq<Item>>)
    ensures r.Err? ==> r == Crash()
  {
    if hs == [] then Ok([])
    else match Matches(hs[0], id, ini, fin)
      case Err(_, _) => Crash()
      case Ok(keep) =>
        match SelectEpisodes(hs[1..], id, ini, fin)
        case Err(_, _) => Crash()
        case Ok(rest) => Ok((if keep then [hs[0]] else []) + rest)
  }

  /** The selection succeeds exactly when every test does, and keeps exactly
      the episodes that pass. */
  lemma {:induction false} SelectEpisodesSpec(hs: seq<Item>, id: int, ini: string, fin: string)
    ensures SelectEpisodes(hs, id, ini, fin).Ok? <==> forall i :: 0 <= i < |hs| ==> Matches(hs[i], id, ini, fin).Ok?
    ensures SelectEpisodes(hs, id, ini, fin).Ok? ==>
      forall x :: x in SelectEpisodes(hs, id, ini, fin).value <==> x in hs && Matches(x, id, ini, fin) == Ok(true)
  {
    if hs != [] {
      SelectEpisodesSpec(hs[1..], id, ini, fin);
      assert forall i :: 0 < i < |hs| ==> hs[i] == hs[1..][i - 1];
      assert hs == [hs[0]] + hs[1..];
    }
  }

  /** The selection keeps the gathered order. */
  lemma {:induction false} SelectEpisodesAppend(a: seq<Item>, b: seq<Item>, id: int, ini: string, fin: string)
    requires SelectEpisodes(a + b, id, ini, fin).Ok?
    ensures SelectEpisodes(a, id, ini, fin).Ok? && SelectEpisodes(b, id, ini, fin).Ok?
    ensures SelectEpisodes(a + b, id, ini, fin).value == SelectEpisodes(a, id, ini, fin).value + SelectEpisodes(b, id, ini, fin).value
  {
    if a == [] {
      assert a + b == b;
    } else {
      assert (a + b)[0] == a[0] && (a + b)[1..] == a[1..] + b;
      SelectEpisodesAppend(a[1..], b, id, ini, fin);
    }
  }

  /** A selected episode is the patient's and its date lies in the window,
      both ends included. */
  lemma SelectedInWindow(h: Item, id: int, ini: string, fin: string)
    requires Matches(h, id, ini, fin) == Ok(true)
    ensures h.Obj? && ID_PACIENTE in h.fields && h.fields[ID_PACIENTE] == Num(id as real)
    ensures GetOr(h.fields, FECHA, Str("")).Str?
    ensures LexLe(ini, GetOr(h.fields, FECHA, Str("")).s) && LexLe(GetOr(h.fields, FECHA, Str("")).s, fin)
  {
  }

  /** Both ends of the window are included. */
  lemma WindowInclusive(fields: Record, id: int, ini: string, fin: string)
    requires ID_PACIENTE in fields && fields[ID_PACIENTE] == Num(id as real)
    requires LexLe(ini, fin)
    requires FECHA in fields && (fields[FECHA] == Str(ini) || fields[FECHA] == Str(fin))
    ensures Matches(Obj(fields), id, ini, fin) == Ok(true)
  {
    LexLeReflexive(ini);
    LexLeReflexive(fin);
  }

  /** An episode without a date passes only an open-ended window (one that
      starts at the empty text), and its `fecha` is then missing when the
      result row is built. */
  lemma UndatedEpisode(fields: Record, id: int, ini: string, fin: string)
    requires FECHA !in fields
    ensures Matches(Obj(fields), id, ini, fin) == Ok(true) ==> ini == []
  {
  }

  // ---------------------------------------------------------------------------
  // The records of the selected episodes
  // ---------------------------------------------------------------------------

  /** `{h["id_historia_clinica"] for h in historias}`. */
  function IdsOf(hs: seq<Item>): (r: Result<set<Value>>)
    ensures r.Err? ==> r == Crash()
    ensures r.Ok? ==> forall i :: 0 <= i < |hs| ==> hs[i].Obj? && ID_HISTORIA in hs[i].fields && hs[i].fields[ID_HISTORIA] in r.value
    ensures r.Ok? ==> forall v :: v in r.value ==> exists i :: 0 <= i < |hs| && hs[i].Obj? && ID_HISTORIA in hs[i].fields && hs[i].fields[ID_HISTORIA] == v
  {
    if hs == [] then Ok({})
    else match Field(hs[0], ID_HISTORIA)
      case Err(_, _) => Crash()
      case Ok(v) =>
        match IdsOf(hs[1..])
        case Err(_, _) => Crash()
        case Ok(rest) =>
          assert forall i :: 0 < i < |hs| ==> hs[i] == hs[1..][i - 1];
          Ok({v} + rest)
  }

  /** `[e for e in examenes if e["id_historia_clinica"] in ids_historias]`. */
  function ChildrenOf(es: seq<Item>, ids: set<Value>): (r: Result<seq<Item>>)
    ensures r.Err? ==> r == Crash()
  {
    if es == [] then Ok([])
    else match Field(es[0], ID_HISTORIA)
      case Err(_, _) => Crash()
      case Ok(v) =>
        match ChildrenOf(es[1..], ids)
        case Err(_, _) => Crash()
        case Ok(rest) => Ok((if v in ids then [es[0]] else []) + rest)
  }

  /** The filter fails exactly when some record lacks the episode key, and
      keeps exactly the records of the selected episodes, in order. */
  lemma {:induction false} ChildrenOfSpec(es: seq<Item>, ids: set<Value>)
    ensures ChildrenOf(es, ids).Ok? <==> forall i :: 0 <= i < |es| ==> es[i].Obj? && ID_HISTORIA in es[i].fields
    ensures ChildrenOf(es, ids).Ok? ==>
      forall x :: x in ChildrenOf(es, ids).value <==> x in es && x.fields[ID_HISTORIA] in ids
  {
    if es != [] {
      ChildrenOfSpec(es[1..], ids);
      assert forall i :: 0 < i < |es| ==> es[i] == es[1..][i - 1];
      assert es == [es[0]] + es[1..];
    }
  }

  /** The filter works record by record, so it keeps merge order and
      multiplicity: filtering a concatenation concatenates the filtered
      parts, and a single record is kept once or dropped. */
  lemma {:induction false} ChildrenOfAppend(a: seq<Item>, b: seq<Item>, ids: set<Value>)
    ensures ChildrenOf(a + b, ids).Ok? <==> ChildrenOf(a, ids).Ok? && ChildrenOf(b, ids).Ok?
    ensures ChildrenOf(a + b, ids).Ok? ==>
      ChildrenOf(a + b, ids).value == ChildrenOf(a, ids).value + ChildrenOf(b, ids).value
    ensures |a| == 1 && ChildrenOf(a, ids).Ok? ==>
      ChildrenOf(a, ids).value == if a[0].fields[ID_HISTORIA] in ids then a else []
  {
    if a == [] {
      assert a + b == b;
    } else {
      assert (a + b)[0] == a[0] && (a + b)[1..] == a[1..] + b;
      ChildrenOfAppend(a[1..], b, ids);
      if |a| == 1 {
        assert a[1..] == [];
      }
    }
  }

  /** `next(h for h in historias if h["id_historia_clinica"] == v)`. */
  function FirstWith(hs: seq<Item>, v: Value): (r: Option<Item>)
    ensures r.Some? ==> r.value in hs && r.value.Obj? && ID_HISTORIA in r.value.fields && r.value.fields[ID_HISTORIA] == v
  {
    if hs == [] then None
    else if hs[0].Obj? && ID_HISTORIA in hs[0].fields && hs[0].fields[ID_HISTORIA] == v then Some(hs[0])
    else FirstWith(hs[1..], v)
  }

  /** The episode is always found for a record that passed the filter, and
      it is the first in gathered order with that id. */
  lemma {:induction false} FirstWithFound(hs: seq<Item>, v: Value, i: nat)
    requires i < |hs| && hs[i].Obj? && ID_HISTORIA in hs[i].fields && hs[i].fields[ID_HISTORIA] == v
    ensures FirstWith(hs, v).Some?
    ensures exists j :: (0 <= j <= i && FirstWith(hs, v).value == hs[j]
      && forall k :: 0 <= k < j ==> !(hs[k].Obj? && ID_HISTORIA in hs[k].fields && hs[k].fields[ID_HISTORIA] == v))
  {
    if !(hs[0].Obj? && ID_HISTORIA in hs[0].fields && hs[0].fields[ID_HISTORIA] == v) {
      FirstWithFound(hs[1..], v, i - 1);
      var j :| 0 <= j <= i - 1 && FirstWith(hs[1..], v).value == hs[1..][j]
        && forall k :: 0 <= k < j ==> !(hs[1..][k].Obj? && ID_HISTORIA in hs[1..][k].fields && hs[1..][k].fields[ID_HISTORIA] == v);
      assert FirstWith(hs, v).value == hs[j + 1];
      forall k | 0 <= k < j + 1
        ensures !(hs[k].Obj? && ID_HISTORIA in hs[k].fields && hs[k].fields[ID_HISTORIA] == v)
      {
        if k > 0 {
          assert hs[k] == hs[1..][k - 1];
        }
      }
    }
  }

  // ---------------------------------------------------------------------------
  // The result rows
  // ---------------------------------------------------------------------------

  const NORMAL: string := "Normal"
  const ANORMAL: string := "Anormal"

  /** `"Normal" if examen["valor_bajo"] <= examen["resultado"] <=
      examen["valor_alto"] else "Anormal"`: `valor_alto` is read only when
      the lower bound holds. */
  function Estado(e: Record): Result<string>
  {
    if "valor_bajo" !in e || RESULTADO !in e then Crash()
    else match ValueLe(e["valor_bajo"], e[RESULTADO])
      case Err(_, _) => Crash()
      case Ok(low) =>
        if !low then Ok(ANORMAL)
        else if "valor_alto" !in e then Crash()
        else match ValueLe(e[RESULTADO], e["valor_alto"])
          case Err(_, _) => Crash()
          case Ok(high) => Ok(if high then NORMAL else ANORMAL)
  }

  /** "Normal" exactly when the result lies between both bounds,
      inclusive. */
  lemma EstadoNormalIff(e: Record)
    ensures Estado(e) == Ok(NORMAL) <==>
      "valor_bajo" in e && RESULTADO in e && "valor_alto" in e
      && ValueLe(e["valor_bajo"], e[RESULTADO]) == Ok(true) && ValueLe(e[RESULTADO], e["valor_alto"]) == Ok(true)
    ensures Estado(e).Ok? ==> Estado(e).value == NORMAL || Estado(e).value == ANORMAL
  {
  }

  /** A result under the lower bound is "Anormal" whatever `valor_alto`
      holds, even when it is missing. */
  lemma EstadoBelowRange(e: Record)
    requires "valor_bajo" in e && RESULTADO in e
    requires ValueLe(e["valor_bajo"], e[RESULTADO]) == Ok(false)
    ensures Estado(e) == Ok(ANORMAL)
  {
  }

  /** Which search. */
  datatype Kind = Exams | Procedures

  function ChildTable(kind: Kind): string
  {
    match kind
    case Exams => "examenes"
    case Procedures => "procedimientos"
  }

  /** The columns of the record a result row copies. */
  function Copied(kind: Kind): seq<string>
  {
    match kind
    case Exams => ["id_examen", ID_HISTORIA, "nombre_examen", RESULTADO]
    case Procedures => ["id_procedimiento", "nombre_procedimiento", RESULTADO]
  }

  predicate HasColumns(c: Record, keys: seq<string>)
  {
    forall i :: 0 <= i < |keys| ==> keys[i] in c
  }

  /** `r` holds column `k` of `c` unchanged. */
  predicate Copies(c: Record, r: Record, k: string)
  {
    k in c && k in r && r[k] == c[k]
  }

  /** The result row for one record `c` of episode `h`. */
  function Row(kind: Kind, c: Record, h: Record, id: int): Result<Record>
  {
    if FECHA !in h then Crash()
    else match kind
      case Exams =>
        if "id_examen" in c && ID_HISTORIA in c && "nombre_examen" in c && RESULTADO in c then
          (match Estado(c)
           case Err(_, _) => Crash()
           case Ok(estado) =>
             Ok(map["id_examen" := c["id_examen"], ID_HISTORIA := c[ID_HISTORIA], ID_PACIENTE := Num(id as real),
                    "nombre_examen" := c["nombre_examen"], RESULTADO := c[RESULTADO], FECHA := h[FECHA],
                    "estado" := Str(estado)]))
        else Crash()
      case Procedures =>
        if "id_procedimiento" in c && "nombre_procedimiento" in c && RESULTADO in c then
          Ok(map["id_procedimiento" := c["id_procedimiento"], ID_PACIENTE := Num(id as real),
                 "nombre_procedimiento" := c["nombre_procedimiento"], RESULTADO := c[RESULTADO], FECHA := h[FECHA]])
        else Crash()
  }

  /** A row copies the record's columns, names the patient searched for and
      carries the episode's date. */
  lemma RowSpec(kind: Kind, c: Record, h: Record, id: int)
    ensures Row(kind, c, h, id).Ok? ==> forall i :: 0 <= i < |Copied(kind)| ==> Copies(c, Row(kind, c, h, id).value, Copied(kind)[i])
    ensures Row(kind, c, h, id).Ok? ==> ID_PACIENTE in Row(kind, c, h, id).value && Row(kind, c, h, id).value[ID_PACIENTE] == Num(id as real)
    ensures Row(kind, c, h, id).Ok? ==> FECHA in h && FECHA in Row(kind, c, h, id).value && Row(kind, c, h, id).value[FECHA] == h[FECHA]
  {
    if Row(kind, c, h, id).Ok? {
      var r := Row(kind, c, h, id).value;
      if kind.Exams? {
        assert Copies(c, r, "id_examen") && Copies(c, r, ID_HISTORIA) && Copies(c, r, "nombre_examen") && Copies(c, r, RESULTADO);
      } else {
        assert Copies(c, r, "id_procedimiento") && Copies(c, r, "nombre_procedimiento") && Copies(c, r, RESULTADO);
      }
    }
  }

  /** Building a row fails exactly for a missing column or an `estado` that
      cannot be computed. */
  lemma RowOkIff(kind: Kind, c: Record, h: Record, id: int)
    ensures Row(kind, c, h, id).Ok? <==> HasColumns(c, Copied(kind)) && FECHA in h && (kind.Exams? ==> Estado(c).Ok?)
  {
    var keys := Copied(kind);
    if HasColumns(c, keys) {
      assert forall i :: 0 <= i < |keys| ==> keys[i] in c;
      assert keys[0] in c && keys[1] in c && keys[2] in c;
      if kind.Exams? {
        assert keys[3] in c;
      }
    }
  }

  /** The enrichment loop over the filtered records. */
  function Enrich(kind: Kind, cs: seq<Item>, hs: seq<Item>, id: int): (r: Result<seq<Record>>)
    ensures r.Err? ==> r == Crash()
  {
    if cs == [] then Ok([])
    else match Field(cs[0], ID_HISTORIA)
      case Err(_, _) => Crash()
      case Ok(v) =>
        match FirstWith(hs, v)
        case None => Enrich(kind, cs[1..], hs, id)
        case Some(h) =>
          match Row(kind, cs[0].fields, h.fields, id)
          case Err(_, _) => Crash()
          case Ok(row) => Prepend([row], Enrich(kind, cs[1..], hs, id))
  }

  /** The `for` loop building `resultado`. */
  method EnrichLoop(kind: Kind, cs: seq<Item>, hs: seq<Item>, id: int) returns (r: Result<seq<Record>>)
    ensures r == Enrich(kind, cs, hs, id)
  {
    var resultado: seq<Record> := [];
    PrependNil(Enrich(kind, cs, hs, id));
    assert cs[0..] == cs;
    var i := 0;
    while i < |cs|
      invariant 0 <= i <= |cs|
      invariant Enrich(kind, cs, hs, id) == Prepend(resultado, Enrich(kind, cs[i..], hs, id))
    {
      assert cs[i..][1..] == cs[i + 1..];
      var v := Field(cs[i], ID_HISTORIA);
      if v.Err? {
        return Crash();
      }
      var historia := FirstWith(hs, v.value);
      if historia.Some? {
        var row := Row(kind, cs[i].fields, historia.value.fields, id);
        if row.Err? {
          return Crash();
        }
        PrependAssoc(resultado, [row.value], Enrich(kind, cs[i + 1..], hs, id));
        resultado := resultado + [row.value];
      }
      i := i + 1;
    }
    assert cs[i..] == [] && resultado + [] == resultado;
    r := Ok(resultado);
  }

  /** The row built for record `c`: from its columns and the first
      gathered episode with its `id_historia_clinica`. */
  function RowFor(kind: Kind, c: Item, hs: seq<Item>, id: int): Result<Record>
  {
    if c.Obj? && ID_HISTORIA in c.fields && FirstWith(hs, c.fields[ID_HISTORIA]).Some?
    then Row(kind, c.fields, FirstWith(hs, c.fields[ID_HISTORIA]).value.fields, id)
    else Crash()
  }

  /** Every record has an `id_historia_clinica` that some selected episode
      carries. */
  predicate AllFound(cs: seq<Item>, hs: seq<Item>)
  {
    forall i :: 0 <= i < |cs| ==> cs[i].Obj? && ID_HISTORIA in cs[i].fields && FirstWith(hs, cs[i].fields[ID_HISTORIA]).Some?
  }

  /** One turn of the enrichment loop for a record whose episode is found. */
  lemma EnrichStep(kind: Kind, cs: seq<Item>, hs: seq<Item>, id: int)
    requires cs != [] && cs[0].Obj? && ID_HISTORIA in cs[0].fields && FirstWith(hs, cs[0].fields[ID_HISTORIA]).Some?
    requires RowFor(kind, cs[0], hs, id).Ok?
    ensures Enrich(kind, cs, hs, id) == Prepend([RowFor(kind, cs[0], hs, id).value], Enrich(kind, cs[1..], hs, id))
  {
    assert Field(cs[0], ID_HISTORIA) == Ok(cs[0].fields[ID_HISTORIA]);
  }

  /** When every record belongs to a selected episode, each yields exactly
      one row, in order: the row built from that record and the first
      gathered episode with its `id_historia_clinica`. */
  lemma {:induction false} EnrichRows(kind: Kind, cs: seq<Item>, hs: seq<Item>, id: int)
    requires AllFound(cs, hs)
    requires Enrich(kind, cs, hs, id).Ok?
    ensures |Enrich(kind, cs, hs, id).value| == |cs|
    ensures forall k :: 0 <= k < |cs| ==> RowFor(kind, cs[k], hs, id) == Ok(Enrich(kind, cs, hs, id).value[k])
  {
    if cs != [] {
      var rest := Enrich(kind, cs[1..], hs, id);
      assert cs[0].Obj? && ID_HISTORIA in cs[0].fields && FirstWith(hs, cs[0].fields[ID_HISTORIA]).Some?;
      assert RowFor(kind, cs[0], hs, id).Ok? by {
        assert Field(cs[0], ID_HISTORIA) == Ok(cs[0].fields[ID_HISTORIA]);
      }
      EnrichStep(kind, cs, hs, id);
      var row := RowFor(kind, cs[0], hs, id).value;
      assert AllFound(cs[1..], hs) by {
        assert forall i :: 0 <= i < |cs[1..]| ==> cs[1..][i] == cs[i + 1];
      }
      EnrichRows(kind, cs[1..], hs, id);
      assert Enrich(kind, cs, hs, id).value == [row] + rest.value;
      forall k | 0 < k < |cs| ensures RowFor(kind, cs[k], hs, id) == Ok(Enrich(kind, cs, hs, id).value[k]) {
        assert cs[k] == cs[1..][k - 1];
      }
    }
  }

  // ---------------------------------------------------------------------------
  // The endpoints
  // ---------------------------------------------------------------------------

  /** The search after its gathers: `historias` and `children` are what the
      gathers of the episode table and of the record table return. */
  function SearchSpec(kind: Kind, id: int, ini: string, fin: string, historias: Result<seq<Item>>, children: Result<seq<Item>>): Result<seq<Record>>
  {
    if historias.Err? then Err(historias.status, historias.detail)
    else match SelectEpisodes(historias.value, id, ini, fin)
      case Err(c, d) => Err(c, d)
      case Ok(sel) =>
        if sel == [] then Ok([])
        else if children.Err? then Err(children.status, children.detail)
        else match IdsOf(sel)
          case Err(c, d) => Err(c, d)
          case Ok(ids) =>
            match ChildrenOf(children.value, ids)
            case Err(c, d) => Err(c, d)
            case Ok(cs) => Enrich(kind, cs, sel, id)
  }

  /** `buscar_examenes` (kind `Exams`) and `buscar_procedimientos` (kind
      `Procedures`); `fetched` lists the tables gathered: the record table
      only when some episode was selected. */
  method Buscar(kind: Kind, id: int, ini: string, fin: string, historias: Result<seq<Item>>, children: Result<seq<Item>>)
    returns (r: Result<seq<Record>>, fetched: seq<string>)
    ensures r == SearchSpec(kind, id, ini, fin, historias, children)
    ensures historias.Ok? && SelectEpisodes(historias.value, id, ini, fin) == Ok([]) ==>
      r == Ok([]) && fetched == [HISTORIAS_TABLE]
    ensures fetched == [HISTORIAS_TABLE] || fetched == [HISTORIAS_TABLE, ChildTable(kind)]
  {
    fetched := [HISTORIAS_TABLE];
    if historias.Err? {
      return Err(historias.status, historias.detail), fetched;
    }
    var sel := SelectEpisodes(historias.value, id, ini, fin);
    if sel.Err? {
      return Err(sel.status, sel.detail), fetched;
    }
    if sel.value == [] {
      return Ok([]), fetched;
    }
    fetched := fetched + [ChildTable(kind)];
    if children.Err? {
      return Err(children.status, children.detail), fetched;
    }
    var ids := IdsOf(sel.value);
    if ids.Err? {
      return Err(ids.status, ids.detail), fetched;
    }
    var cs := ChildrenOf(children.value, ids.value);
    if cs.Err? {
      return Err(cs.status, cs.detail), fetched;
    }
    r := EnrichLoop(kind, cs.value, sel.value, id);
  }

  /** The records kept for a non-empty selection all belong to a selected
      episode, so the enrichment loop finds an episode for each. */
  lemma SelectedFound(children: seq<Item>, sel: seq<Item>)
    requires IdsOf(sel).Ok? && ChildrenOf(children, IdsOf(sel).value).Ok?
    ensures AllFound(ChildrenOf(children, IdsOf(sel).value).value, sel)
  {
    var ids := IdsOf(sel).value;
    var cs := ChildrenOf(children, ids).value;
    ChildrenOfSpec(children, ids);
    forall i | 0 <= i < |cs|
      ensures cs[i].Obj? && ID_HISTORIA in cs[i].fields && FirstWith(sel, cs[i].fields[ID_HISTORIA]).Some?
    {
      assert cs[i] in cs;
      var v := cs[i].fields[ID_HISTORIA];
      var j :| 0 <= j < |sel| && sel[j].Obj? && ID_HISTORIA in sel[j].fields && sel[j].fields[ID_HISTORIA] == v;
      FirstWithFound(sel, v, j);
    }
  }

  /** One row per record of a selected episode: a search that succeeds
      answers `[]` when no episode is selected, and otherwise exactly one
      row per kept record, in the records' merge order, row `k` built from
      record `k` and the first selected episode with its
      `id_historia_clinica`. */
  lemma SearchOneRowPerRecord(kind: Kind, id: int, ini: string, fin: string, historias: seq<Item>, children: seq<Item>)
    requires SearchSpec(kind, id, ini, fin, Ok(historias), Ok(children)).Ok?
    ensures SelectEpisodes(historias, id, ini, fin) == Ok([]) ==>
      SearchSpec(kind, id, ini, fin, Ok(historias), Ok(children)) == Ok([])
    ensures SelectEpisodes(historias, id, ini, fin) != Ok([]) ==>
      var sel := SelectEpisodes(historias, id, ini, fin).value;
      var cs := ChildrenOf(children, IdsOf(sel).value).value;
      var rows := SearchSpec(kind, id, ini, fin, Ok(historias), Ok(children)).value;
      |rows| == |cs| && forall k :: 0 <= k < |cs| ==> RowFor(kind, cs[k], sel, id) == Ok(rows[k])
  {
    var sel := SelectEpisodes(historias, id, ini, fin).value;
    if sel != [] {
      SelectedFound(children, sel);
      EnrichRows(kind, ChildrenOf(children, IdsOf(sel).value).value, sel, id);
    }
  }

  /** Every row the search returns names the patient searched for and
      carries a date inside the window. */
  lemma SearchRows(kind: Kind, id: int, ini: string, fin: string, historias: seq<Item>, children: seq<Item>, k: nat)
    requires SearchSpec(kind, id, ini, fin, Ok(historias), Ok(children)).Ok?
    requires k < |SearchSpec(kind, id, ini, fin, Ok(historias), Ok(children)).value|
    ensures var row := SearchSpec(kind, id, ini, fin, Ok(historias), Ok(children)).value[k];
      ID_PACIENTE in row && row[ID_PACIENTE] == Num(id as real)
    ensures var row := SearchSpec(kind, id, ini, fin, Ok(historias), Ok(children)).value[k];
      FECHA in row && row[FECHA].Str? && LexLe(ini, row[FECHA].s) && LexLe(row[FECHA].s, fin)
  {
    var sel := SelectEpisodes(historias, id, ini, fin).value;
    var cs := ChildrenOf(children, IdsOf(sel).value).value;
    SelectEpisodesSpec(historias, id, ini, fin);
    SearchOneRowPerRecord(kind, id, ini, fin, historias, children);
    var c := cs[k];
    var h := FirstWith(sel, c.fields[ID_HISTORIA]).value;
    RowSpec(kind, c.fields, h.fields, id);
    SelectedInWindow(h, id, ini, fin);
  }
}
