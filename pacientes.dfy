/** The patient endpoints of `routers/pacientes.py`: list, look up, and
    create with a duplicate-username guard. The local store is a class
    whose rows the create operation appends to. */
module Pacientes {
  import opened Text
  import opened Records
  import opened Federation

  // ---------------------------------------------------------------------------
  // GET /api/pacientes
  // ---------------------------------------------------------------------------

  /** `"id_paciente" in p`: a key test on a dict, a substring test on a
      string, and a TypeError on a number or null. */
  function HasId(it: Item): Result<bool>
  {
    match it
    case Obj(f) => Ok(ID_PACIENTE in f)
    case Scalar(v) => if v.Str? then Ok(Contains(v.s, ID_PACIENTE)) else Crash()
  }

  /** `[p for p in raw if "id_paciente" in p]`. */
  function KeepWithId(raw: seq<Item>): (r: Result<seq<Item>>)
    ensures r.Ok? <==> forall i :: 0 <= i < |raw| ==> HasId(raw[i]).Ok?
    ensures r.Err? ==> r == Crash()
    ensures r.Ok? ==> forall x :: x in r.value <==> x in raw && HasId(x) == Ok(true)
  {
    if raw == [] then Ok([])
    else
      var rest := KeepWithId(raw[1..]);
      if HasId(raw[0]).Err? then Crash()
      else if rest.Err? then rest
      else Ok((if HasId(raw[0]).value then [raw[0]] else []) + rest.value)
  }

  /** The filter works row by row, so it keeps merge order: filtering a
      concatenation concatenates the filtered parts. */
  lemma {:induction false} KeepWithIdAppend(a: seq<Item>, b: seq<Item>)
    ensures KeepWithId(a + b).Ok? <==> KeepWithId(a).Ok? && KeepWithId(b).Ok?
    ensures KeepWithId(a + b).Ok? ==> KeepWithId(a + b).value == KeepWithId(a).value + KeepWithId(b).value
  {
    if a == [] {
      assert a + b == b;
    } else {
      assert (a + b)[0] == a[0] && (a + b)[1..] == a[1..] + b;
      KeepWithIdAppend(a[1..], b);
    }
  }

  /** Filtering an already filtered list changes nothing. */
  lemma {:induction false} KeepWithIdIdempotent(raw: seq<Item>)
    requires KeepWithId(raw).Ok?
    ensures KeepWithId(KeepWithId(raw).value) == KeepWithId(raw)
  {
    if raw != [] {
      KeepWithIdIdempotent(raw[1..]);
      var rest := KeepWithId(raw[1..]).value;
      if HasId(raw[0]).value {
        var kept := [raw[0]] + rest;
        assert KeepWithId(raw).value == kept;
        assert kept[0] == raw[0] && kept[1..] == rest;
        assert KeepWithId(kept) == Ok([raw[0]] + KeepWithId(rest).value);
      } else {
        assert KeepWithId(raw).value == rest;
      }
    }
  }

  /** `get_pacientes`: the patient table is not federated, so this is the
      local store's answer, filtered. */
  function ListPacientes(cfg: Settings, net: Network): Result<seq<Item>>
  {
    KeepWithId(Gather(PACIENTES_TABLE, map[], cfg, net))
  }

  /** Every dict listed was read from the local store and carries the tag
      "local", whatever the site registry. */
  lemma ListedAreLocal(cfg: Settings, net: Network, x: Item)
    requires ListPacientes(cfg, net).Ok? && x in ListPacientes(cfg, net).value && x.Obj?
    ensures SEDE_ORIGEN in x.fields && x.fields[SEDE_ORIGEN] == Str(LOCAL)
  {
    var raw := Gather(PACIENTES_TABLE, map[], cfg, net);
    var i :| 0 <= i < |raw| && raw[i] == x;
    GatherLocalFirst(PACIENTES_TABLE, map[], cfg, net, i);
  }

  // ---------------------------------------------------------------------------
  // GET /api/pacientes/{id_paciente}
  // ---------------------------------------------------------------------------

  const NOT_FOUND: string := "Paciente no encontrado"

  /** `{"id_paciente": f"eq.{id_paciente}"}`. */
  function IdFilter(id: int): Params
  {
    map[ID_PACIENTE := "eq." + IntStr(id)]
  }

  /** `get_paciente`: the first row of the filtered read, or 404. */
  function GetPaciente(id: int, cfg: Settings, net: Network): Result<Item>
  {
    var res := Gather(PACIENTES_TABLE, IdFilter(id), cfg, net);
    if res == [] then Err(404, NOT_FOUND) else Ok(res[0])
  }

  /** First or 404: the answer is 404 exactly when the local store delivers
      no row, and otherwise the store's first row tagged "local". */
  lemma GetPacienteFirstOr404(id: int, cfg: Settings, net: Network)
    ensures var local := net(LocalRequest(cfg, PACIENTES_TABLE, IdFilter(id)));
      && (GetPaciente(id, cfg, net).Err? <==> Delivered(local) == 0)
      && (GetPaciente(id, cfg, net).Err? ==> GetPaciente(id, cfg, net) == Err(404, NOT_FOUND))
      && (GetPaciente(id, cfg, net).Ok? ==> GetPaciente(id, cfg, net).value == Tag(AsList(local.body)[0], LOCAL))
  {
    GatherCount(PACIENTES_TABLE, IdFilter(id), cfg, net);
    if Delivered(net(LocalRequest(cfg, PACIENTES_TABLE, IdFilter(id)))) > 0 {
      GatherLocalFirst(PACIENTES_TABLE, IdFilter(id), cfg, net, 0);
    }
  }

  // ---------------------------------------------------------------------------
  // POST /api/pacientes
  // ---------------------------------------------------------------------------

  /** The request body (`PacienteCreate`). */
  datatype PacienteCreate = PacienteCreate(
    nombres: string, apellidos: string, cedula: string,
    email: Option<string>, telefono: Option<string>, direccion: Option<string>,
    usuario: string, contrasena: string)

  function OptionalText(o: Option<string>): Value
  {
    if o.Some? then Str(o.value) else Null
  }

  /** `paciente.dict()`. */
  function PlainData(p: PacienteCreate): Record
  {
    map["nombres" := Str(p.nombres), "apellidos" := Str(p.apellidos), "cedula" := Str(p.cedula),
        "email" := OptionalText(p.email), "telefono" := OptionalText(p.telefono),
        "direccion" := OptionalText(p.direccion),
        "usuario" := Str(p.usuario), "contrasena" := Str(p.contrasena)]
  }

  /** The row sent to the store: the body with the password replaced by the
      hash `hash_password` produced; every other field unchanged. */
  function RowData(p: PacienteCreate, hashed: string): (r: Record)
    ensures r.Keys == PlainData(p).Keys
    ensures r["contrasena"] == Str(hashed)
    ensures forall k :: k in r && k != "contrasena" ==> r[k] == PlainData(p)[k]
  {
    PlainData(p)["contrasena" := Str(hashed)]
  }

  /** The FHIR `Patient` resource mirrored to the HAPI server. */
  datatype FhirPatient = FhirPatient(identifierCedula: string, family: string, given: seq<string>, email: Value)

  function FhirPatientOf(p: PacienteCreate): FhirPatient
  {
    FhirPatient(p.cedula, p.apellidos, [p.nombres], OptionalText(p.email))
  }

  /** What the endpoint can read back from a 2xx insert reply. With
      `Prefer: return=representation` the body is a JSON list holding the
      inserted row (`FirstWithId`). `NoFirst`: `resp_sql.json()[0]` raises
      (a body that is not JSON, `[]`, a dict, a number or null).
      `FirstWithoutId`: that element reads, but indexing it with
      `"id_paciente"` raises (a dict without the key, a string, a list). */
  datatype Echo = NoFirst | FirstWithoutId | FirstWithId

  /** How the store answers the insert: the POST raises, or it answers with
      a status and a body, summarised by `echo`. */
  datatype WriteOutcome = WriteRaised | WriteStatus(code: int, echo: Echo)

  datatype Created = Created(idPaciente: Value, mensaje: string)

  const DUPLICATE: string := "El usuario ya existe"
  const STORE_ERROR: string := "Error guardando en base de datos local"
  const CREATED: string := "Paciente creado (SQL + FHIR)"

  predicate Is2xx(code: int)
  {
    200 <= code < 300
  }

  /** Rows whose `usuario` equals `u` (the `usuario=eq.u` filter). */
  function RowsOf(rows: seq<Record>, u: string): (r: seq<Record>)
    ensures forall x :: x in r <==> x in rows && "usuario" in x && x["usuario"] == Str(u)
  {
    if rows == [] then []
    else (if "usuario" in rows[0] && rows[0]["usuario"] == Str(u) then [rows[0]] else []) + RowsOf(rows[1..], u)
  }

  /** Every row has a numeric id below `n`. */
  predicate IdsBelow(rows: seq<Record>, n: int)
  {
    forall i :: 0 <= i < |rows| ==> ID_PACIENTE in rows[i] && rows[i][ID_PACIENTE].Num? && rows[i][ID_PACIENTE].x < n as real
  }

  predicate UniqueNames(rows: seq<Record>)
  {
    forall i, j :: 0 <= i < j < |rows| && "usuario" in rows[i] && "usuario" in rows[j] ==> rows[i]["usuario"] != rows[j]["usuario"]
  }

  /** A row carrying the next serial value keeps the ids below the next
      one, and its id is new. */
  lemma AppendFresh(rows: seq<Record>, n: int, created: Record)
    requires IdsBelow(rows, n)
    requires ID_PACIENTE in created && created[ID_PACIENTE] == Num(n as real)
    ensures IdsBelow(rows + [created], n + 1)
    ensures forall i :: 0 <= i < |rows| ==> rows[i][ID_PACIENTE] != created[ID_PACIENTE]
  {
    var all: seq<Record> := rows + [created];
    forall i | 0 <= i < |all|
      ensures ID_PACIENTE in all[i] && all[i][ID_PACIENTE].Num? && all[i][ID_PACIENTE].x < (n + 1) as real
    {
      if i < |rows| {
        assert all[i] == rows[i];
      }
    }
  }

  /** A row whose username no row has keeps the usernames unique. */
  lemma AppendUnique(rows: seq<Record>, created: Record, u: string)
    requires RowsOf(rows, u) == []
    requires "usuario" in created && created["usuario"] == Str(u)
    ensures UniqueNames(rows) ==> UniqueNames(rows + [created])
  {
    var all: seq<Record> := rows + [created];
    forall i, j | UniqueNames(rows) && 0 <= i < j < |all| && "usuario" in all[i] && "usuario" in all[j]
      ensures all[i]["usuario"] != all[j]["usuario"]
    {
      assert all[i] == rows[i];
      if j == |rows| {
        assert rows[i] !in RowsOf(rows, u);
      } else {
        assert all[j] == rows[j];
      }
    }
  }

  /** The local `pacientes` table. */
  class PatientStore {
    var rows: seq<Record>
    /** The next value of the serial `id_paciente`. */
    var nextId: int

    /** Every row has a numeric id below the next serial value. */
    predicate Valid()
      reads this
    {
      IdsBelow(rows, nextId)
    }

    /** No two rows share a username. */
    predicate UniqueUsuarios()
      reads this
    {
      UniqueNames(rows)
    }

    constructor()
      ensures rows == [] && nextId == 1
      ensures Valid() && UniqueUsuarios()
    {
      rows := [];
      nextId := 1;
    }

    /** `create_paciente`. The duplicate probe is a local-only gather (the
        table is not federated): when it reaches the store it sees the rows
        with that username; when it does not, it sees nothing and the guard
        passes. `hashed` is what `hash_password` returned this time (bcrypt
        salts each hash). A 2xx status means the row is stored; the answer
        then reads `resp_sql.json()[0]`, which raises after the write when
        the body holds no first element. Once it reads, the FHIR mirror is
        attempted and its outcome ignored (`fhir` is the resource sent); only
        then is `["id_paciente"]` read from that element, which raises when
        the element does not hold the key. */
    method CreatePaciente(p: PacienteCreate, probeReached: bool, hashed: string, write: WriteOutcome)
      returns (r: Result<Created>, fhir: Option<FhirPatient>)
      requires Valid()
      modifies this
      ensures Valid()
      ensures probeReached && RowsOf(old(rows), p.usuario) != [] ==>
        r == Err(400, DUPLICATE) && rows == old(rows) && nextId == old(nextId) && fhir.None?
      ensures write.WriteRaised? && !(probeReached && RowsOf(old(rows), p.usuario) != []) ==>
        r == Crash() && rows == old(rows) && nextId == old(nextId) && fhir.None?
      ensures write.WriteStatus? && !Is2xx(write.code) && !(probeReached && RowsOf(old(rows), p.usuario) != []) ==>
        r == Err(500, STORE_ERROR) && rows == old(rows) && nextId == old(nextId) && fhir.None?
      ensures !(probeReached && RowsOf(old(rows), p.usuario) != []) && write.WriteStatus? && Is2xx(write.code) ==>
        && rows == old(rows) + [RowData(p, hashed)[ID_PACIENTE := Num(old(nextId) as real)]]
        && nextId == old(nextId) + 1
      ensures (!(probeReached && RowsOf(old(rows), p.usuario) != []) && write.WriteStatus? && Is2xx(write.code)
               && write.echo.NoFirst?) ==> r == Crash() && fhir.None?
      ensures (!(probeReached && RowsOf(old(rows), p.usuario) != []) && write.WriteStatus? && Is2xx(write.code)
               && !write.echo.NoFirst?) ==> fhir == Some(FhirPatientOf(p))
      ensures (!(probeReached && RowsOf(old(rows), p.usuario) != []) && write.WriteStatus? && Is2xx(write.code)
               && write.echo.FirstWithoutId?) ==> r == Crash()
      ensures r.Ok? <==>
        !(probeReached && RowsOf(old(rows), p.usuario) != []) && write.WriteStatus? && Is2xx(write.code) && write.echo.FirstWithId?
      ensures r.Ok? ==> r.value == Created(Num(old(nextId) as real), CREATED) && fhir == Some(FhirPatientOf(p))
      ensures r.Ok? ==> forall i :: 0 <= i < |old(rows)| ==> old(rows)[i][ID_PACIENTE] != r.value.idPaciente
      ensures probeReached && old(UniqueUsuarios()) ==> UniqueUsuarios()
    {
      // 1. duplicate check
      var existing := if probeReached then RowsOf(rows, p.usuario) else [];
      if existing != [] {
        return Err(400, DUPLICATE), None;
      }
      // 2. write locally, password hashed
      var data := RowData(p, hashed);
      if write.WriteRaised? {
        return Crash(), None;
      }
      if !Is2xx(write.code) {
        return Err(500, STORE_ERROR), None;
      }
      var created := data[ID_PACIENTE := Num(nextId as real)];
      AppendFresh(rows, nextId, created);
      if probeReached {
        AppendUnique(rows, created, p.usuario);
      }
      rows := rows + [created];
      nextId := nextId + 1;
      // the stored row is read back from the reply
      if write.echo.NoFirst? {
        return Crash(), None;
      }
      // 3. best-effort FHIR mirror
      fhir := Some(FhirPatientOf(p));
      // the answer reads the id from the row read back
      if write.echo.FirstWithoutId? {
        return Crash(), fhir;
      }
      r := Ok(Created(created[ID_PACIENTE], CREATED));
    }
  }
}
