/** Login, token verification and logout (`routers/auth.py`, and the
    line-for-line identical `auth_final.py`). Password hashing and JWT
    signing are library code and enter as parameters. */
module Auth {
  import opened Records
  import opened Federation
  import Config

  /** The outcome of `verify_password(plain, stored)`: it holds, it does not,
      or it raises (a stored value that is not a recognisable hash). */
  datatype Check = Verified | Rejected | Unreadable

  type PasswordCheck = (string, Value) -> Check

  /** The claims `create_token` signs: `str(subject)`, the role and the
      expiry instant in seconds. */
  datatype Claims = Claims(sub: string, rol: string, exp: int)

  /** `jwt.encode` with the configured secret and algorithm. */
  type Signer = Claims -> string

  /** `jwt.decode` with the configured secret: the payload, or nothing when
      the signature is bad or the token has expired. */
  type Decoder = string -> Option<Record>

  /** Python's `str()` of a stored id. */
  type Show = Value -> string

  /** A token lives `JWT_EXPIRATION_HOURS`. */
  const TOKEN_LIFETIME: int := Config.JWT_EXPIRATION_HOURS * 3600

  /** The payload a token signed over `c` decodes to. */
  function ClaimsRecord(c: Claims): Record
  {
    map["exp" := Num(c.exp as real), "sub" := Str(c.sub), "rol" := Str(c.rol)]
  }

  /** `create_token(uid, rol)` at instant `now`. */
  function CreateToken(uid: Value, rol: string, now: int, show: Show, sign: Signer): string
  {
    sign(Claims(show(uid), rol, now + TOKEN_LIFETIME))
  }

  /** The body of `POST /api/auth/login`. */
  datatype Credentials = Credentials(usuario: string, contrasena: string)

  datatype LoginResponse = LoginResponse(token: string, rol: string, idUsuario: Value)

  /** One stage of the chain: the table probed, the role it grants and the
      column holding the user's id. */
  datatype Probe = Probe(table: string, rol: string, idField: string)

  /** admisionistas, then doctores, then pacientes. */
  const PROBES: seq<Probe> := [
    Probe("admisionistas", "admisionista", "id_admisionista"),
    Probe("doctores", "medico", "id_doctor"),
    Probe("pacientes", "paciente", "id_paciente")]

  const BAD_CREDENTIALS: string := "Credenciales invalidas o usuario no encontrado"

  /** `{"usuario": f"eq.{usuario}"}`. */
  function UserFilter(usuario: string): Params
  {
    map["usuario" := "eq." + usuario]
  }

  /** What one stage decides about the rows its query returned. */
  datatype Verdict = FallThrough | Matched(uid: Value) | Failed

  /** Only the first row is looked at: `users[0].get("contrasena")` (which
      raises on a row that is not a dict), then the password check, then
      `users[0][idField]` (which raises when the column is missing). A row
      whose password does not verify falls through, as does no row. */
  function Decide(p: Probe, users: seq<Item>, contrasena: string, check: PasswordCheck): Verdict
  {
    if users == [] then FallThrough
    else if !users[0].Obj? then Failed
    else
      match check(contrasena, GetOr(users[0].fields, "contrasena", Null))
      case Unreadable => Failed
      case Rejected => FallThrough
      case Verified => if p.idField in users[0].fields then Matched(users[0].fields[p.idField]) else Failed
  }

  /** The rows stage `p` sees. */
  function StageUsers(p: Probe, creds: Credentials, cfg: Settings, net: Network): seq<Item>
  {
    Gather(p.table, UserFilter(creds.usuario), cfg, net)
  }

  function StageVerdict(p: Probe, creds: Credentials, cfg: Settings, net: Network, check: PasswordCheck): Verdict
  {
    Decide(p, StageUsers(p, creds, cfg, net), creds.contrasena, check)
  }

  /** The first stage that does not fall through decides; none at all is a
      401. */
  function LoginSpec(probes: seq<Probe>, creds: Credentials, cfg: Settings, net: Network,
                     check: PasswordCheck, show: Show, sign: Signer, now: int): Result<LoginResponse>
  {
    if probes == [] then Err(401, BAD_CREDENTIALS)
    else
      match StageVerdict(probes[0], creds, cfg, net, check)
      case FallThrough => LoginSpec(probes[1..], creds, cfg, net, check, show, sign, now)
      case Failed => Crash()
      case Matched(uid) => Ok(LoginResponse(CreateToken(uid, probes[0].rol, now, show, sign), probes[0].rol, uid))
  }

  /** The GETs a gather issues. */
  function GatherCalls(endpoint: string, params: Params, cfg: Settings): (r: seq<Request>)
    ensures |r| >= 1 && r[0] == LocalRequest(cfg, endpoint, params)
  {
    [LocalRequest(cfg, endpoint, params)]
      + (if Federated(endpoint)
         then seq(|cfg.sedes|, i requires 0 <= i < |cfg.sedes| => RelayRequest(cfg.sedes[i], endpoint, params))
         else [])
  }

  /** The GETs of the stages the chain reaches. */
  function LoginCalls(probes: seq<Probe>, creds: Credentials, cfg: Settings, net: Network, check: PasswordCheck): seq<Request>
  {
    if probes == [] then []
    else
      GatherCalls(probes[0].table, UserFilter(creds.usuario), cfg)
        + (if StageVerdict(probes[0], creds, cfg, net, check) == FallThrough
           then LoginCalls(probes[1..], creds, cfg, net, check) else [])
  }

  /** The trace `QueryAllSedes` promises is exactly `GatherCalls`. */
  lemma TraceIsGatherCalls(calls: seq<Request>, endpoint: string, params: Params, cfg: Settings)
    requires |calls| == if Federated(endpoint) then 1 + |cfg.sedes| else 1
    requires calls[0] == LocalRequest(cfg, endpoint, params)
    requires forall i :: 1 <= i < |calls| ==> calls[i] == RelayRequest(cfg.sedes[i - 1], endpoint, params)
    ensures calls == GatherCalls(endpoint, params, cfg)
  {
    var g := GatherCalls(endpoint, params, cfg);
    forall i | 0 <= i < |calls| ensures calls[i] == g[i] {
    }
  }

  /** One stage as it runs. */
  method ProbeStage(p: Probe, creds: Credentials, cfg: Settings, net: Network, check: PasswordCheck)
    returns (v: Verdict, calls: seq<Request>)
    ensures v == StageVerdict(p, creds, cfg, net, check)
    ensures calls == GatherCalls(p.table, UserFilter(creds.usuario), cfg)
  {
    var users;
    users, calls := QueryAllSedes(p.table, UserFilter(creds.usuario), cfg, net);
    TraceIsGatherCalls(calls, p.table, UserFilter(creds.usuario), cfg);
    if users == [] {
      return FallThrough, calls;
    }
    if !users[0].Obj? {
      return Failed, calls;
    }
    var stored := GetOr(users[0].fields, "contrasena", Null);
    var outcome := check(creds.contrasena, stored);
    if outcome == Unreadable {
      v := Failed;
    } else if outcome == Rejected {
      v := FallThrough;
    } else if p.idField in users[0].fields {
      v := Matched(users[0].fields[p.idField]);
    } else {
      v := Failed;
    }
  }

  /** `login`: the three stages in order, returning from the first that
      matches; the GETs issued are returned too. */
  method Login(creds: Credentials, cfg: Settings, net: Network, check: PasswordCheck, show: Show, sign: Signer, now: int)
    returns (r: Result<LoginResponse>, calls: seq<Request>)
    ensures r == LoginSpec(PROBES, creds, cfg, net, check, show, sign, now)
    ensures calls == LoginCalls(PROBES, creds, cfg, net, check)
  {
    assert |PROBES| == 3;
    // 1. admisionistas
    var rest := PROBES;
    var v, c := Stage(rest, creds, cfg, net, check, show, sign, now);
    calls := c;
    if v.Matched? {
      return Ok(LoginResponse(CreateToken(v.uid, rest[0].rol, now, show, sign), rest[0].rol, v.uid)), calls;
    }
    if v.Failed? {
      return Crash(), calls;
    }
    // 2. doctores
    rest := rest[1..];
    v, c := Stage(rest, creds, cfg, net, check, show, sign, now);
    ConcatAssoc(calls, c, LoginCalls(rest[1..], creds, cfg, net, check));
    calls := calls + c;
    if v.Matched? {
      return Ok(LoginResponse(CreateToken(v.uid, rest[0].rol, now, show, sign), rest[0].rol, v.uid)), calls;
    }
    if v.Failed? {
      return Crash(), calls;
    }
    // 3. pacientes
    rest := rest[1..];
    v, c := Stage(rest, creds, cfg, net, check, show, sign, now);
    ConcatAssoc(calls, c, LoginCalls(rest[1..], creds, cfg, net, check));
    calls := calls + c;
    if v.Matched? {
      return Ok(LoginResponse(CreateToken(v.uid, rest[0].rol, now, show, sign), rest[0].rol, v.uid)), calls;
    }
    if v.Failed? {
      return Crash(), calls;
    }
    assert rest[1..] == [];
    r := Err(401, BAD_CREDENTIALS);
  }

  /** The first remaining stage, and what it leaves to the stages after it. */
  method Stage(probes: seq<Probe>, creds: Credentials, cfg: Settings, net: Network, check: PasswordCheck,
               show: Show, sign: Signer, now: int)
    returns (v: Verdict, calls: seq<Request>)
    requires probes != []
    ensures v == StageVerdict(probes[0], creds, cfg, net, check)
    ensures v == FallThrough ==>
      LoginSpec(probes, creds, cfg, net, check, show, sign, now) == LoginSpec(probes[1..], creds, cfg, net, check, show, sign, now)
    ensures v.Matched? ==>
      LoginSpec(probes, creds, cfg, net, check, show, sign, now)
        == Ok(LoginResponse(CreateToken(v.uid, probes[0].rol, now, show, sign), probes[0].rol, v.uid))
    ensures v.Failed? ==> LoginSpec(probes, creds, cfg, net, check, show, sign, now) == Crash()
    ensures v == FallThrough ==> LoginCalls(probes, creds, cfg, net, check) == calls + LoginCalls(probes[1..], creds, cfg, net, check)
    ensures v != FallThrough ==> LoginCalls(probes, creds, cfg, net, check) == calls
  {
    v, calls := ProbeStage(probes[0], creds, cfg, net, check);
    if v != FallThrough {
      assert LoginCalls(probes, creds, cfg, net, check) == calls + [];
    }
  }

  // ---------------------------------------------------------------------------
  // Properties of the chain
  // ---------------------------------------------------------------------------

  /** First match: when every stage before `k` falls through, stage `k`
      decides. A match answers with that stage's role and the id from its
      own id column, and the token is signed over the same role and id,
      expiring one lifetime after `now`; no later table is queried. */
  lemma {:induction false} LoginFirstMatch(probes: seq<Probe>, creds: Credentials, cfg: Settings, net: Network,
                                           check: PasswordCheck, show: Show, sign: Signer, now: int, k: nat)
    requires k < |probes|
    requires forall j :: 0 <= j < k ==> StageVerdict(probes[j], creds, cfg, net, check) == FallThrough
    ensures var v := StageVerdict(probes[k], creds, cfg, net, check);
      v.Matched? ==>
        LoginSpec(probes, creds, cfg, net, check, show, sign, now)
          == Ok(LoginResponse(sign(Claims(show(v.uid), probes[k].rol, now + TOKEN_LIFETIME)), probes[k].rol, v.uid))
    ensures StageVerdict(probes[k], creds, cfg, net, check).Failed? ==>
      LoginSpec(probes, creds, cfg, net, check, show, sign, now) == Crash()
    ensures StageVerdict(probes[k], creds, cfg, net, check) != FallThrough ==>
      |LoginCalls(probes, creds, cfg, net, check)| == TraceLength(probes[..k + 1], cfg)
  {
    if k > 0 {
      assert StageVerdict(probes[0], creds, cfg, net, check) == FallThrough;
      assert probes[1..][k - 1] == probes[k];
      LoginFirstMatch(probes[1..], creds, cfg, net, check, show, sign, now, k - 1);
      assert probes[..k + 1][1..] == probes[1..][..k];
    }
  }

  /** Total number of GETs the gathers of these stages issue. */
  function TraceLength(probes: seq<Probe>, cfg: Settings): nat
  {
    if probes == [] then 0
    else (if Federated(probes[0].table) then 1 + |cfg.sedes| else 1) + TraceLength(probes[1..], cfg)
  }

  /** A single 401, with one fixed message, exactly when every stage falls
      through; whichever stage ended the chain otherwise, the answer is not
      that 401. */
  lemma {:induction false} LoginRejectedIff(probes: seq<Probe>, creds: Credentials, cfg: Settings, net: Network,
                                            check: PasswordCheck, show: Show, sign: Signer, now: int)
    ensures LoginSpec(probes, creds, cfg, net, check, show, sign, now) == Err(401, BAD_CREDENTIALS)
        <==> forall j :: 0 <= j < |probes| ==> StageVerdict(probes[j], creds, cfg, net, check) == FallThrough
  {
    if probes != [] {
      LoginRejectedIff(probes[1..], creds, cfg, net, check, show, sign, now);
      if StageVerdict(probes[0], creds, cfg, net, check) == FallThrough {
        forall j | 1 <= j < |probes| ensures probes[j] == probes[1..][j - 1] { }
      }
    }
  }

  /** None of the probed tables is federated, so login only ever reads the
      local store: the `i`-th GET is the `i`-th stage's local read. */
  lemma LoginStaysLocal(creds: Credentials, cfg: Settings, net: Network, check: PasswordCheck)
    ensures |LoginCalls(PROBES, creds, cfg, net, check)| <= |PROBES|
    ensures forall i :: 0 <= i < |LoginCalls(PROBES, creds, cfg, net, check)| ==>
      LoginCalls(PROBES, creds, cfg, net, check)[i] == LocalRequest(cfg, PROBES[i].table, UserFilter(creds.usuario))
  {
    LocalCalls(PROBES, creds, cfg, net, check);
  }

  lemma {:induction false} LocalCalls(probes: seq<Probe>, creds: Credentials, cfg: Settings, net: Network, check: PasswordCheck)
    requires forall j :: 0 <= j < |probes| ==> !Federated(probes[j].table)
    ensures |LoginCalls(probes, creds, cfg, net, check)| <= |probes|
    ensures forall i :: 0 <= i < |LoginCalls(probes, creds, cfg, net, check)| ==>
      LoginCalls(probes, creds, cfg, net, check)[i] == LocalRequest(cfg, probes[i].table, UserFilter(creds.usuario))
  {
    if probes != [] {
      assert forall j :: 0 < j < |probes| ==> probes[1..][j - 1] == probes[j];
      LocalCalls(probes[1..], creds, cfg, net, check);
      var first := LocalRequest(cfg, probes[0].table, UserFilter(creds.usuario));
      var rest := if StageVerdict(probes[0], creds, cfg, net, check) == FallThrough
        then LoginCalls(probes[1..], creds, cfg, net, check) else [];
      assert GatherCalls(probes[0].table, UserFilter(creds.usuario), cfg) == [first];
      assert LoginCalls(probes, creds, cfg, net, check) == [first] + rest;
      forall i | 1 <= i < 1 + |rest|
        ensures ([first] + rest)[i] == LocalRequest(cfg, probes[i].table, UserFilter(creds.usuario))
      {
        assert ([first] + rest)[i] == rest[i - 1];
      }
    }
  }

  /** Only the first row counts: rows after it never change a stage's
      decision. */
  lemma FirstRowOnly(p: Probe, users: seq<Item>, contrasena: string, check: PasswordCheck)
    requires users != []
    ensures Decide(p, users, contrasena, check) == Decide(p, users[..1], contrasena, check)
  {
    assert users[..1][0] == users[0];
  }

  // ---------------------------------------------------------------------------
  // verify and logout
  // ---------------------------------------------------------------------------

  const INVALID_TOKEN: string := "Token invalido o expirado"
  /** The dependency's own message, with the accent. */
  const INVALID_TOKEN_ACCENTED: string := "Token inv\U{E1}lido o expirado"
  const LOGGED_OUT: string := "Sesion cerrada correctamente"

  datatype VerifyResponse = VerifyResponse(idUsuario: Value, rol: Value, exp: Value)

  /** `not payload`: no payload, or an empty one. */
  predicate Falsy(payload: Option<Record>)
  {
    payload.None? || payload.value == map[]
  }

  /** `verify`: a falsy payload is a 401; otherwise the answer is read from
      the `sub`, `rol` and `exp` claims (absent ones as null). */
  function Verify(token: string, decode: Decoder): (r: Result<VerifyResponse>)
    ensures r.Err? <==> Falsy(decode(token))
    ensures r.Err? ==> r.status == 401
  {
    var payload := decode(token);
    if Falsy(payload) then Err(401, INVALID_TOKEN)
    else Ok(VerifyResponse(GetOr(payload.value, "sub", Null), GetOr(payload.value, "rol", Null), GetOr(payload.value, "exp", Null)))
  }

  /** `logout`: the bearer token must decode (`get_current_user`), and then
      the answer is always the same message; nothing is revoked. */
  function Logout(token: string, decode: Decoder): (r: Result<string>)
  {
    if Falsy(decode(token)) then Err(401, INVALID_TOKEN_ACCENTED) else Ok(LOGGED_OUT)
  }

  /** Logout is stateless: it accepts exactly the tokens `verify` accepts,
      always with the same message, and a token that was logged out still
      verifies afterwards. */
  lemma LogoutRevokesNothing(token: string, decode: Decoder)
    ensures Logout(token, decode).Ok? <==> Verify(token, decode).Ok?
    ensures Logout(token, decode).Ok? ==> Logout(token, decode).value == LOGGED_OUT
    ensures Logout(token, decode).Err? ==> Logout(token, decode).status == Verify(token, decode).status
  {
  }

  /** Login then verify: with a decoder that inverts the signer (the token
      is verified before it expires), verifying the token a successful
      login returned yields the role and id that login answered with, and
      an expiry one lifetime after the login. */
  lemma LoginThenVerify(creds: Credentials, cfg: Settings, net: Network, check: PasswordCheck,
                        show: Show, sign: Signer, decode: Decoder, now: int)
    requires LoginSpec(PROBES, creds, cfg, net, check, show, sign, now).Ok?
    requires forall c :: decode(sign(c)) == Some(ClaimsRecord(c))
    ensures var resp := LoginSpec(PROBES, creds, cfg, net, check, show, sign, now).value;
      Verify(resp.token, decode)
        == Ok(VerifyResponse(Str(show(resp.idUsuario)), Str(resp.rol), Num((now + TOKEN_LIFETIME) as real)))
  {
    LoginIssues(PROBES, creds, cfg, net, check, show, sign, now);
    var resp := LoginSpec(PROBES, creds, cfg, net, check, show, sign, now).value;
    var c := Claims(show(resp.idUsuario), resp.rol, now + TOKEN_LIFETIME);
    assert decode(sign(c)) == Some(ClaimsRecord(c));
    assert "sub" in ClaimsRecord(c);
  }

  /** Every successful login answers with a token signed over its own id and
      role. */
  lemma {:induction false} LoginIssues(probes: seq<Probe>, creds: Credentials, cfg: Settings, net: Network,
                                       check: PasswordCheck, show: Show, sign: Signer, now: int)
    requires LoginSpec(probes, creds, cfg, net, check, show, sign, now).Ok?
    ensures var resp := LoginSpec(probes, creds, cfg, net, check, show, sign, now).value;
      resp.token == sign(Claims(show(resp.idUsuario), resp.rol, now + TOKEN_LIFETIME))
  {
    if StageVerdict(probes[0], creds, cfg, net, check) == FallThrough {
      LoginIssues(probes[1..], creds, cfg, net, check, show, sign, now);
    }
  }
}
