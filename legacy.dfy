/** The first federation coordinator, still defined in `main.py` and used by
    the endpoints declared there: no allow-list, no trailing-slash handling,
    and a site that answers with an error status makes its task return
    `None`, which the merge loop cannot extend with. */
module Legacy {
  import opened Text
  import opened Records
  import opened Federation

  const LEGACY_RELAY_PATH: string := "/api/consulta-local/"

  /** `f"{sede_url}/api/consulta-local/{endpoint}"`, the address used as
      configured. */
  function LegacyRelayRequest(sede: string, endpoint: string, params: Params): Request
  {
    Get(sede + LEGACY_RELAY_PATH + endpoint, params)
  }

  /** `for item in data: item["sede_origen"] = origin` with no type test:
      iterating a list of dicts tags each one; a list holding anything but a
      dict raises on that element; iterating a dict yields its keys, so a
      non-empty dict raises on the first key and an empty one runs no
      step. `None` stands for the raise. */
  function TagInPlace(body: Json, origin: string): (r: Option<seq<Item>>)
  {
    match body
    case Array(items) =>
      if forall i :: 0 <= i < |items| ==> items[i].Obj? then Some(TagAll(items, origin)) else None
    case Object(obj) => if obj == map[] then Some([]) else None
  }

  /** The tagging loop as it runs: stops at the first element it cannot
      assign into. */
  method TagEach(body: Json, origin: string) returns (r: Option<seq<Item>>)
    ensures r == TagInPlace(body, origin)
    ensures r.Some? ==> forall i :: 0 <= i < |r.value| ==> r.value[i].Obj? && SEDE_ORIGEN in r.value[i].fields && r.value[i].fields[SEDE_ORIGEN] == Str(origin)
  {
    if body.Object? {
      if body.obj == map[] {
        return Some([]);
      }
      return None;
    }
    var items := body.items;
    var tagged: seq<Item> := [];
    var i := 0;
    while i < |items|
      invariant 0 <= i <= |items|
      invariant |tagged| == i
      invariant forall k :: 0 <= k < i ==> items[k].Obj? && tagged[k] == Tag(items[k], origin)
    {
      if !items[i].Obj? {
        return None;
      }
      tagged := tagged + [Tag(items[i], origin)];
      i := i + 1;
    }
    forall k | 0 <= k < |items| ensures tagged[k] == TagAll(items, origin)[k] {
      TagAllAt(items, origin, k);
    }
    assert forall k :: 0 <= k < |items| ==> items[k].Obj?;
    assert tagged == TagAll(items, origin);
    return Some(tagged);
  }

  /** The rows the local read adds: everything goes wrong quietly (a raise,
      a non-200 answer, an untaggable body), leaving the local part empty. */
  function LocalRows(endpoint: string, params: Params, cfg: Settings, net: Network): seq<Item>
  {
    var resp := net(LocalRequest(cfg, endpoint, params));
    if resp.Raised? || resp.status != 200 then []
    else match TagInPlace(resp.body, LOCAL)
      case None => []
      case Some(t) => t
  }

  /** What one `query_sede` task returns: a list, or `None` when the site
      answers with a status other than 200 (the function then falls off its
      end). A raise, including one from tagging, is caught and gives `[]`. */
  datatype SiteReturn = Rows(items: seq<Item>) | NoneReturned

  function LegacySiteReturn(sede: string, endpoint: string, params: Params, net: Network): SiteReturn
  {
    var resp := net(LegacyRelayRequest(sede, endpoint, params));
    if resp.Raised? then Rows([])
    else if resp.status != 200 then NoneReturned
    else match TagInPlace(resp.body, sede)
      case None => Rows([])
      case Some(t) => Rows(t)
  }

  function SiteReturns(sedes: seq<string>, endpoint: string, params: Params, net: Network): (r: seq<SiteReturn>)
    ensures |r| == |sedes|
    ensures forall i :: 0 <= i < |sedes| ==> r[i] == LegacySiteReturn(sedes[i], endpoint, params, net)
  {
    seq(|sedes|, i requires 0 <= i < |sedes| => LegacySiteReturn(sedes[i], endpoint, params, net))
  }

  /** `for result in remote_results: results.extend(result)`: extending with
      `None` raises TypeError, which nothing catches. */
  function ExtendReturns(acc: seq<Item>, rs: seq<SiteReturn>): Result<seq<Item>>
    decreases |rs|
  {
    if rs == [] then Ok(acc)
    else if rs[0].NoneReturned? then Crash()
    else ExtendReturns(acc + rs[0].items, rs[1..])
  }

  /** The rows the site tasks return, `None` read as nothing. */
  function ItemsOf(rs: seq<SiteReturn>): (r: seq<seq<Item>>)
    ensures |r| == |rs|
    ensures forall i :: 0 <= i < |rs| ==> r[i] == (if rs[i].Rows? then rs[i].items else [])
  {
    seq(|rs|, i requires 0 <= i < |rs| => if rs[i].Rows? then rs[i].items else [])
  }

  /** The merge as written: it succeeds exactly when no task returned
      `None`, and then it is the local rows followed by each site's rows in
      registry order. */
  lemma {:induction false} ExtendReturnsSpec(acc: seq<Item>, rs: seq<SiteReturn>)
    ensures ExtendReturns(acc, rs).Ok? <==> forall i :: 0 <= i < |rs| ==> rs[i].Rows?
    ensures ExtendReturns(acc, rs).Ok? ==> ExtendReturns(acc, rs).value == acc + Flatten(ItemsOf(rs))
    decreases |rs|
  {
    if rs != [] {
      ExtendReturnsSpec(acc + (if rs[0].Rows? then rs[0].items else []), rs[1..]);
      assert ItemsOf(rs)[1..] == ItemsOf(rs[1..]);
      if rs[0].NoneReturned? {
        assert !rs[0].Rows?;
      } else {
        forall i | 0 <= i < |rs| && (forall j :: 0 <= j < |rs[1..]| ==> rs[1..][j].Rows?) ensures rs[i].Rows? {
          if i > 0 {
            assert rs[i] == rs[1..][i - 1];
          }
        }
      }
    }
  }

  /** The answer of the legacy `query_all_sedes`, for every table. */
  function LegacyGather(endpoint: string, params: Params, cfg: Settings, net: Network): Result<seq<Item>>
  {
    ExtendReturns(LocalRows(endpoint, params, cfg, net), SiteReturns(cfg.sedes, endpoint, params, net))
  }

  /** `query_sede` of the legacy coordinator. */
  method LegacyQuerySede(sede: string, endpoint: string, params: Params, net: Network)
    returns (ret: SiteReturn, call: Request)
    ensures call == LegacyRelayRequest(sede, endpoint, params)
    ensures ret == LegacySiteReturn(sede, endpoint, params, net)
  {
    call := LegacyRelayRequest(sede, endpoint, params);
    var response := net(call);
    if response.Raised? {
      return Rows([]), call;
    }
    if response.status != 200 {
      return NoneReturned, call;
    }
    var tagged := TagEach(response.body, sede);
    if tagged.None? {
      ret := Rows([]);
    } else {
      ret := Rows(tagged.value);
    }
  }

  /** The legacy `query_all_sedes`: local read, then every registered site
      regardless of the table, then the merge loop, which stops the whole
      request at the first task that returned `None`. */
  method LegacyQueryAllSedes(endpoint: string, params: Params, cfg: Settings, net: Network)
    returns (r: Result<seq<Item>>, calls: seq<Request>)
    ensures r == LegacyGather(endpoint, params, cfg, net)
    ensures |calls| == 1 + |cfg.sedes| && calls[0] == LocalRequest(cfg, endpoint, params)
    ensures forall i :: 1 <= i < |calls| ==> calls[i] == LegacyRelayRequest(cfg.sedes[i - 1], endpoint, params)
  {
    var results: seq<Item> := [];
    var localCall := LocalRequest(cfg, endpoint, params);
    calls := [localCall];
    var localResponse := net(localCall);
    if localResponse.Reply? && localResponse.status == 200 {
      var localData := TagEach(localResponse.body, LOCAL);
      if localData.Some? {
        results := results + localData.value;
      }
    }
    var answers: seq<SiteReturn> := [];
    var i := 0;
    while i < |cfg.sedes|
      invariant 0 <= i <= |cfg.sedes|
      invariant |answers| == i && |calls| == 1 + i && calls[0] == localCall
      invariant forall k :: 0 <= k < i ==> answers[k] == LegacySiteReturn(cfg.sedes[k], endpoint, params, net)
      invariant forall k :: 1 <= k < |calls| ==> calls[k] == LegacyRelayRequest(cfg.sedes[k - 1], endpoint, params)
    {
      var ret, call := LegacyQuerySede(cfg.sedes[i], endpoint, params, net);
      answers := answers + [ret];
      calls := calls + [call];
      i := i + 1;
    }
    assert answers == SiteReturns(cfg.sedes, endpoint, params, net);
    assert results == LocalRows(endpoint, params, cfg, net);
    assert answers[0..] == answers;
    var j := 0;
    while j < |answers|
      invariant 0 <= j <= |answers|
      invariant ExtendReturns(results, answers[j..]) == LegacyGather(endpoint, params, cfg, net)
    {
      assert answers[j..][1..] == answers[j + 1..];
      if answers[j].NoneReturned? {
        return Crash(), calls;
      }
      results := results + answers[j].items;
      j := j + 1;
    }
    r := Ok(results);
  }

  // ---------------------------------------------------------------------------
  // The defect and its correction
  // ---------------------------------------------------------------------------

  /** As written: one site answering with any status other than 200 fails
      the whole request, discarding the local rows and every other site's
      rows, whatever the table. */
  lemma LegacySiteErrorFailsAll(endpoint: string, params: Params, cfg: Settings, net: Network, k: nat)
    requires k < |cfg.sedes|
    requires net(LegacyRelayRequest(cfg.sedes[k], endpoint, params)).Reply?
    requires net(LegacyRelayRequest(cfg.sedes[k], endpoint, params)).status != 200
    ensures LegacyGather(endpoint, params, cfg, net) == Crash()
  {
    var rs := SiteReturns(cfg.sedes, endpoint, params, net);
    ExtendReturnsSpec(LocalRows(endpoint, params, cfg, net), rs);
    assert !rs[k].Rows?;
    NonOkIsCrash(LocalRows(endpoint, params, cfg, net), rs);
  }

  /** The merge loop only ever fails with the one uncaught TypeError. */
  lemma {:induction false} NonOkIsCrash(acc: seq<Item>, rs: seq<SiteReturn>)
    ensures ExtendReturns(acc, rs).Err? ==> ExtendReturns(acc, rs) == Crash()
    decreases |rs|
  {
    if rs != [] && rs[0].Rows? {
      NonOkIsCrash(acc + rs[0].items, rs[1..]);
    }
  }

  const EXAMPLE_LOCAL: string := "http://localhost:3000"
  const EXAMPLE_SEDE: string := "http://sede-b:8000"

  /** The network of the example: the local store holds one patient and the
      one sibling site is down behind a proxy answering 503. */
  function ExampleNet(req: Request): Response
  {
    if req.url == EXAMPLE_LOCAL + "/pacientes" then Reply(200, Array([Obj(map["id_paciente" := Num(1.0)])]))
    else Reply(503, Array([]))
  }

  /** A concrete run: with one site answering 503, the legacy coordinator
      fails although the local store answered, while the corrected one
      returns the local row. */
  lemma LegacyCounterexample()
    ensures LegacyGather("pacientes", map[], Settings(EXAMPLE_LOCAL, [EXAMPLE_SEDE]), ExampleNet).Err?
    ensures |GatherFixed("pacientes", map[], Settings(EXAMPLE_LOCAL, [EXAMPLE_SEDE]), ExampleNet)| == 1
  {
    var cfg := Settings(EXAMPLE_LOCAL, [EXAMPLE_SEDE]);
    assert LegacyRelayRequest(EXAMPLE_SEDE, "pacientes", map[]).url != EXAMPLE_LOCAL + "/pacientes" by {
      assert LegacyRelayRequest(EXAMPLE_SEDE, "pacientes", map[]).url[7] == 's';
    }
    LegacySiteErrorFailsAll("pacientes", map[], cfg, ExampleNet, 0);
    var body := Array([Obj(map["id_paciente" := Num(1.0)])]);
    assert TagInPlace(body, LOCAL).Some?;
    assert |LocalRows("pacientes", map[], cfg, ExampleNet)| == 1;
    FixedSiteErrorIsolated("pacientes", map[], cfg, ExampleNet, 0);
    assert cfg.sedes[..0] + cfg.sedes[1..] == [];
  }

  /** Corrected task: an error status contributes nothing, as a raise
      already does (and as the newer coordinator does). */
  function FixedSiteRows(sede: string, endpoint: string, params: Params, net: Network): seq<Item>
  {
    match LegacySiteReturn(sede, endpoint, params, net)
    case NoneReturned => []
    case Rows(t) => t
  }

  function FixedBlocks(sedes: seq<string>, endpoint: string, params: Params, net: Network): (r: seq<seq<Item>>)
    ensures |r| == |sedes|
    ensures forall i :: 0 <= i < |sedes| ==> r[i] == FixedSiteRows(sedes[i], endpoint, params, net)
  {
    seq(|sedes|, i requires 0 <= i < |sedes| => FixedSiteRows(sedes[i], endpoint, params, net))
  }

  /** The corrected merge never fails. */
  function GatherFixed(endpoint: string, params: Params, cfg: Settings, net: Network): seq<Item>
  {
    LocalRows(endpoint, params, cfg, net) + Flatten(FixedBlocks(cfg.sedes, endpoint, params, net))
  }

  /** The correction changes nothing where the original worked: whenever
      the legacy merge succeeds, the corrected one gives the same rows. */
  lemma FixedAgreesWhenLegacySucceeds(endpoint: string, params: Params, cfg: Settings, net: Network)
    requires LegacyGather(endpoint, params, cfg, net).Ok?
    ensures LegacyGather(endpoint, params, cfg, net).value == GatherFixed(endpoint, params, cfg, net)
  {
    var rs := SiteReturns(cfg.sedes, endpoint, params, net);
    ExtendReturnsSpec(LocalRows(endpoint, params, cfg, net), rs);
    assert ItemsOf(rs) == FixedBlocks(cfg.sedes, endpoint, params, net);
  }

  /** Corrected: a site that answers with an error status only removes its
      own rows; the answer equals the one over the registry without it. */
  lemma FixedSiteErrorIsolated(endpoint: string, params: Params, cfg: Settings, net: Network, k: nat)
    requires k < |cfg.sedes|
    requires net(LegacyRelayRequest(cfg.sedes[k], endpoint, params)).Reply?
    requires net(LegacyRelayRequest(cfg.sedes[k], endpoint, params)).status != 200
    ensures GatherFixed(endpoint, params, cfg, net)
         == GatherFixed(endpoint, params, cfg.(sedes := cfg.sedes[..k] + cfg.sedes[k + 1..]), net)
  {
    var blocks := FixedBlocks(cfg.sedes, endpoint, params, net);
    assert blocks[k] == [];
    FlattenSkipEmpty(blocks, k);
    FixedBlocksRemove(cfg.sedes, endpoint, params, net, k);
  }

  /** Dropping site `k` from the registry drops its block. */
  lemma FixedBlocksRemove(sedes: seq<string>, endpoint: string, params: Params, net: Network, k: nat)
    requires k < |sedes|
    ensures var blocks := FixedBlocks(sedes, endpoint, params, net);
      blocks[..k] + blocks[k + 1..] == FixedBlocks(sedes[..k] + sedes[k + 1..], endpoint, params, net)
  {
    var blocks := FixedBlocks(sedes, endpoint, params, net);
    var rest := sedes[..k] + sedes[k + 1..];
    var restBlocks := FixedBlocks(rest, endpoint, params, net);
    forall i | 0 <= i < |rest| ensures (blocks[..k] + blocks[k + 1..])[i] == restBlocks[i] {
      if i < k {
        assert rest[i] == sedes[i];
      } else {
        assert rest[i] == sedes[i + 1];
      }
    }
  }

  // ---------------------------------------------------------------------------
  // The legacy relay endpoint
  // ---------------------------------------------------------------------------

  /** `GET /api/consulta-local/{tabla}`: reads the whole table from this
      site's store, dropping any filter the caller had (the endpoint takes
      no query parameters); an error status from the store becomes an empty
      list, a raise is not caught. */
  function LegacyRelay(tabla: string, cfg: Settings, net: Network): (r: Result<Json>)
    ensures r.Err? <==> net(Get(cfg.postgrestUrl + "/" + tabla, map[])).Raised?
    ensures net(Get(cfg.postgrestUrl + "/" + tabla, map[])).Reply? && net(Get(cfg.postgrestUrl + "/" + tabla, map[])).status != 200
      ==> r == Ok(Array([]))
  {
    var resp := net(Get(cfg.postgrestUrl + "/" + tabla, map[]));
    if resp.Raised? then Crash()
    else if resp.status == 200 then Ok(resp.body)
    else Ok(Array([]))
  }
}
