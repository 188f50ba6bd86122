/** The federation coordinator of `services/distributed.py`: read the local
    store first, and for the federated tables also every sibling site, tagging
    each row with where it came from and concatenating in a fixed order. */
module Federation {
  import opened Text
  import opened Records

  /** Query-string filter handed through to the store (`params`); no filter
      is the empty map. */
  type Params = map<string, string>

  /** One outbound HTTP GET. */
  datatype Request = Get(url: string, params: Params)

  /** How a GET ends: it raises (connection error, timeout, a body that is
      not JSON), or it answers with a status and a JSON body. */
  datatype Response = Raised | Reply(status: int, body: Json)

  /** The network during one inbound request: what each outbound GET yields. */
  type Network = Request -> Response

  /** The process-wide configuration the coordinator reads. */
  datatype Settings = Settings(postgrestUrl: string, sedes: seq<string>)

  const SEDE_ORIGEN: string := "sede_origen"
  const LOCAL: string := "local"
  const RELAY_PATH: string := "/internal/api/consulta-local/"

  /** The only tables whose reads leave this site. */
  const TABLAS_DISTRIBUIDAS: seq<string> := ["historia_clinica", "examenes", "procedimientos", "enfermedades"]

  predicate Federated(endpoint: string)
  {
    endpoint in TABLAS_DISTRIBUIDAS
  }

  /** The read against this site's own store. */
  function LocalRequest(cfg: Settings, endpoint: string, params: Params): Request
  {
    Get(cfg.postgrestUrl + "/" + endpoint, params)
  }

  /** `sede_url.rstrip("/") + f"/internal/api/consulta-local/{endpoint}"`. */
  function RelayUrl(sede: string, endpoint: string): string
  {
    RStripChar(sede, '/') + RELAY_PATH + endpoint
  }

  function RelayRequest(sede: string, endpoint: string, params: Params): Request
  {
    Get(RelayUrl(sede, endpoint), params)
  }

  /** The relay address starts with the site address stripped of its
      trailing slashes, so exactly one slash separates it from the relay
      path, and a trailing slash in the configured address is immaterial. */
  lemma RelayUrlShape(sede: string, endpoint: string)
    ensures var base := RStripChar(sede, '/');
      && base <= sede
      && RelayUrl(sede, endpoint) == base + RELAY_PATH + endpoint
      && (base == [] || base[|base| - 1] != '/')
    ensures RelayUrl(sede + "/", endpoint) == RelayUrl(sede, endpoint)
  {
    assert (sede + "/")[..|sede|] == sede;
  }

  /** `if isinstance(data, dict): data = [data]`. */
  function AsList(j: Json): seq<Item>
  {
    match j
    case Array(items) => items
    case Object(obj) => [Obj(obj)]
  }

  /** `if isinstance(item, dict): item["sede_origen"] = origin`. */
  function Tag(it: Item, origin: string): Item
  {
    match it
    case Obj(f) => Obj(f[SEDE_ORIGEN := Str(origin)])
    case Scalar(_) => it
  }

  /** Dicts get the tag, overwriting any value already there, and keep every
      other field; other values pass through unchanged. */
  lemma TagSpec(it: Item, origin: string)
    ensures Tag(it, origin).Obj? <==> it.Obj?
    ensures it.Scalar? ==> Tag(it, origin) == it
    ensures it.Obj? ==> Tag(it, origin).fields.Keys == it.fields.Keys + {SEDE_ORIGEN}
    ensures it.Obj? ==> Tag(it, origin).fields[SEDE_ORIGEN] == Str(origin)
    ensures it.Obj? ==> forall k :: k in it.fields && k != SEDE_ORIGEN ==> Tag(it, origin).fields[k] == it.fields[k]
  {
  }

  /** The loop that tags every item of a response in place. */
  method TagItems(data: seq<Item>, origin: string) returns (tagged: seq<Item>)
    ensures |tagged| == |data|
    ensures forall i :: 0 <= i < |data| ==> tagged[i] == Tag(data[i], origin)
  {
    tagged := [];
    var i := 0;
    while i < |data|
      invariant 0 <= i <= |data|
      invariant |tagged| == i
      invariant forall k :: 0 <= k < i ==> tagged[k] == Tag(data[k], origin)
    {
      tagged := tagged + [Tag(data[i], origin)];
      i := i + 1;
    }
  }

  /** Every item tagged with `origin`, in order. */
  function TagAll(items: seq<Item>, origin: string): (r: seq<Item>)
    ensures |r| == |items|
  {
    if items == [] then [] else [Tag(items[0], origin)] + TagAll(items[1..], origin)
  }

  lemma {:induction false} TagAllAt(items: seq<Item>, origin: string, i: nat)
    requires i < |items|
    ensures TagAll(items, origin)[i] == Tag(items[i], origin)
  {
    if i > 0 {
      TagAllAt(items[1..], origin, i - 1);
    }
  }

  /** How many rows a call delivers: all of a 200 answer, none otherwise. */
  function Delivered(resp: Response): nat
  {
    if resp.Reply? && resp.status == 200 then |AsList(resp.body)| else 0
  }

  /** The rows one call contributes, tagged with `origin`. */
  function Received(resp: Response, origin: string): (r: seq<Item>)
    ensures |r| == Delivered(resp)
  {
    if resp.Reply? && resp.status == 200 then TagAll(AsList(resp.body), origin) else []
  }

  /** What one sibling site contributes (`query_sede`). */
  function SiteRows(sede: string, endpoint: string, params: Params, net: Network): seq<Item>
  {
    Received(net(RelayRequest(sede, endpoint, params)), sede)
  }

  /** Each site's contribution, in registry order (the list `asyncio.gather`
      returns). */
  function SiteBlocks(sedes: seq<string>, endpoint: string, params: Params, net: Network): (r: seq<seq<Item>>)
    ensures |r| == |sedes|
    ensures forall i :: 0 <= i < |sedes| ==> r[i] == SiteRows(sedes[i], endpoint, params, net)
  {
    seq(|sedes|, i requires 0 <= i < |sedes| => SiteRows(sedes[i], endpoint, params, net))
  }

  // ---------------------------------------------------------------------------
  // Concatenating per-site blocks
  // ---------------------------------------------------------------------------

  /** Blocks concatenated in order. */
  function Flatten<T>(blocks: seq<seq<T>>): seq<T>
  {
    if blocks == [] then [] else blocks[0] + Flatten(blocks[1..])
  }
  /** Total number of elements in the blocks. */
  function TotalSize<T>(blocks: seq<seq<T>>): nat
  {
    if blocks == [] then 0 else |blocks[0]| + TotalSize(blocks[1..])
  }
  lemma {:induction false} FlattenAppend<T>(a: seq<seq<T>>, b: seq<seq<T>>)
    ensures Flatten(a + b) == Flatten(a) + Flatten(b)
  {
    if a == [] {
      assert a + b == b;
    } else {
      assert (a + b)[1..] == a[1..] + b;
      FlattenAppend(a[1..], b);
    }
  }
  lemma {:induction false} FlattenSize<T>(blocks: seq<seq<T>>)
    ensures |Flatten(blocks)| == TotalSize(blocks)
  {
    if blocks != [] {
      FlattenSize(blocks[1..]);
    }
  }
  /** Splitting the blocks around block `k`. */
  lemma FlattenAround<T>(blocks: seq<seq<T>>, k: nat)
    requires k < |blocks|
    ensures Flatten(blocks) == Flatten(blocks[..k]) + blocks[k] + Flatten(blocks[k + 1..])
  {
    assert blocks == blocks[..k] + blocks[k..];
    FlattenAppend(blocks[..k], blocks[k..]);
    assert blocks[k..][1..] == blocks[k + 1..];
  }
  /** Element `j` of block `k` sits right after the blocks before it. */
  lemma FlattenAt<T>(blocks: seq<seq<T>>, k: nat, j: nat)
    requires k < |blocks| && j < |blocks[k]|
    ensures TotalSize(blocks[..k]) + j < |Flatten(blocks)|
    ensures Flatten(blocks)[TotalSize(blocks[..k]) + j] == blocks[k][j]
  {
    FlattenAround(blocks, k);
    FlattenSize(blocks[..k]);
    var pre := Flatten(blocks[..k]);
    var tail := blocks[k] + Flatten(blocks[k + 1..]);
    assert Flatten(blocks) == pre + tail;
    assert (pre + tail)[|pre| + j] == tail[j];
  }
  /** An empty block can be dropped without changing the concatenation. */
  lemma FlattenSkipEmpty<T>(blocks: seq<seq<T>>, k: nat)
    requires k < |blocks| && blocks[k] == []
    ensures Flatten(blocks) == Flatten(blocks[..k] + blocks[k + 1..])
  {
    FlattenAround(blocks, k);
    FlattenAppend(blocks[..k], blocks[k + 1..]);
  }
  /** Every position of a concatenation lies in some block. */
  lemma {:induction false} FlattenLocate<T>(blocks: seq<seq<T>>, p: nat) returns (k: nat, j: nat)
    requires p < |Flatten(blocks)|
    ensures k < |blocks| && j < |blocks[k]| && p == TotalSize(blocks[..k]) + j
  {
    if p < |blocks[0]| {
      k, j := 0, p;
    } else {
      var r, q := FlattenLocate(blocks[1..], p - |blocks[0]|);
      k, j := r + 1, q;
      assert blocks[..k][1..] == blocks[1..][..r];
    }
  }

  /** The merged answer of `query_all_sedes`. */
  function Gather(endpoint: string, params: Params, cfg: Settings, net: Network): seq<Item>
  {
    Received(net(LocalRequest(cfg, endpoint, params)), LOCAL)
      + (if Federated(endpoint) then Flatten(SiteBlocks(cfg.sedes, endpoint, params, net)) else [])
  }

  /** One GET: on a 200 answer, its items (a lone object wrapped in a list)
      tagged with `origin`; on any other status or an exception, nothing. */
  method ReadTagged(call: Request, origin: string, net: Network) returns (data: seq<Item>)
    ensures data == Received(net(call), origin)
  {
    var response := net(call);
    if response.Reply? && response.status == 200 {
      data := TagItems(AsList(response.body), origin);
      forall i | 0 <= i < |data| ensures data[i] == TagAll(AsList(response.body), origin)[i] {
        TagAllAt(AsList(response.body), origin, i);
      }
    } else {
      data := [];
    }
  }

  /** `query_sede`: one relay read, tagged with the site's address as
      configured (not stripped). */
  method QuerySede(sede: string, endpoint: string, params: Params, net: Network)
    returns (data: seq<Item>, call: Request)
    ensures call == RelayRequest(sede, endpoint, params)
    ensures data == SiteRows(sede, endpoint, params, net)
  {
    call := RelayRequest(sede, endpoint, params);
    data := ReadTagged(call, sede, net);
  }

  /** The fan-out of `query_all_sedes`: one `query_sede` task per registered
      site; `asyncio.gather` returns their results in registry order. Also
      returns the GETs issued, in order. */
  method QuerySites(sedes: seq<string>, endpoint: string, params: Params, net: Network)
    returns (blocks: seq<seq<Item>>, calls: seq<Request>)
    ensures blocks == SiteBlocks(sedes, endpoint, params, net)
    ensures |calls| == |sedes|
    ensures forall k :: 0 <= k < |sedes| ==> calls[k] == RelayRequest(sedes[k], endpoint, params)
  {
    blocks, calls := [], [];
    var i := 0;
    while i < |sedes|
      invariant 0 <= i <= |sedes|
      invariant |blocks| == i && |calls| == i
      invariant forall k :: 0 <= k < i ==> blocks[k] == SiteRows(sedes[k], endpoint, params, net)
      invariant forall k :: 0 <= k < i ==> calls[k] == RelayRequest(sedes[k], endpoint, params)
    {
      var data, call := QuerySede(sedes[i], endpoint, params, net);
      blocks := blocks + [data];
      calls := calls + [call];
      i := i + 1;
    }
  }

  /** `for r in remote_results: if r: results.extend(r)`. */
  method ExtendAll(results: seq<Item>, blocks: seq<seq<Item>>) returns (merged: seq<Item>)
    ensures merged == results + Flatten(blocks)
  {
    merged := results;
    var j := 0;
    while j < |blocks|
      invariant 0 <= j <= |blocks|
      invariant merged == results + Flatten(blocks[..j])
    {
      if blocks[j] != [] {
        merged := merged + blocks[j];
      }
      FlattenAppend(blocks[..j], [blocks[j]]);
      assert blocks[..j + 1] == blocks[..j] + [blocks[j]];
      assert Flatten([blocks[j]]) == blocks[j] + Flatten([]);
      j := j + 1;
    }
    assert blocks[..j] == blocks;
  }

  /** `query_all_sedes`: local read first; stop there unless the table is
      federated; otherwise one relay read per registered site, appended in
      registry order. Also returns every GET issued, in order. */
  method QueryAllSedes(endpoint: string, params: Params, cfg: Settings, net: Network)
    returns (results: seq<Item>, calls: seq<Request>)
    ensures results == Gather(endpoint, params, cfg, net)
    ensures |calls| == if Federated(endpoint) then 1 + |cfg.sedes| else 1
    ensures calls[0] == LocalRequest(cfg, endpoint, params)
    ensures forall i :: 1 <= i < |calls| ==> calls[i] == RelayRequest(cfg.sedes[i - 1], endpoint, params)
  {
    var localCall := LocalRequest(cfg, endpoint, params);
    calls := [localCall];
    results := ReadTagged(localCall, LOCAL, net);
    if !Federated(endpoint) {
      return;
    }
    var remoteResults, remoteCalls := QuerySites(cfg.sedes, endpoint, params, net);
    calls := calls + remoteCalls;
    results := ExtendAll(results, remoteResults);
  }

  // ---------------------------------------------------------------------------
  // Properties of the merge
  // ---------------------------------------------------------------------------

  /** Sum of what each site delivers. */
  function SitesDelivered(sedes: seq<string>, endpoint: string, params: Params, net: Network): nat
  {
    if sedes == [] then 0
    else Delivered(net(RelayRequest(sedes[0], endpoint, params))) + SitesDelivered(sedes[1..], endpoint, params, net)
  }

  lemma {:induction false} SiteBlocksSize(sedes: seq<string>, endpoint: string, params: Params, net: Network)
    ensures TotalSize(SiteBlocks(sedes, endpoint, params, net)) == SitesDelivered(sedes, endpoint, params, net)
  {
    if sedes != [] {
      SiteBlocksSize(sedes[1..], endpoint, params, net);
      assert SiteBlocks(sedes, endpoint, params, net)[1..] == SiteBlocks(sedes[1..], endpoint, params, net);
    }
  }

  /** No de-duplication: the merge holds exactly as many rows as the local
      store and the answering sites delivered together. */
  lemma GatherCount(endpoint: string, params: Params, cfg: Settings, net: Network)
    ensures |Gather(endpoint, params, cfg, net)|
      == Delivered(net(LocalRequest(cfg, endpoint, params)))
       + (if Federated(endpoint) then SitesDelivered(cfg.sedes, endpoint, params, net) else 0)
  {
    FlattenSize(SiteBlocks(cfg.sedes, endpoint, params, net));
    SiteBlocksSize(cfg.sedes, endpoint, params, net);
  }

  /** Merge order: the rows of site `k` sit in one block, in the site's
      order and tagged with its address, right after the local rows and the
      rows of the sites registered before it. */
  lemma GatherOrder(endpoint: string, params: Params, cfg: Settings, net: Network, k: nat, j: nat)
    requires Federated(endpoint) && k < |cfg.sedes|
    requires j < Delivered(net(RelayRequest(cfg.sedes[k], endpoint, params)))
    ensures var local := Delivered(net(LocalRequest(cfg, endpoint, params)));
      var before := SitesDelivered(cfg.sedes[..k], endpoint, params, net);
      && local + before + j < |Gather(endpoint, params, cfg, net)|
      && Gather(endpoint, params, cfg, net)[local + before + j]
         == Tag(AsList(net(RelayRequest(cfg.sedes[k], endpoint, params)).body)[j], cfg.sedes[k])
  {
    var blocks := SiteBlocks(cfg.sedes, endpoint, params, net);
    var local := Received(net(LocalRequest(cfg, endpoint, params)), LOCAL);
    var resp := net(RelayRequest(cfg.sedes[k], endpoint, params));
    var before := TotalSize(blocks[..k]);
    assert before == SitesDelivered(cfg.sedes[..k], endpoint, params, net) by {
      assert blocks[..k] == SiteBlocks(cfg.sedes[..k], endpoint, params, net);
      SiteBlocksSize(cfg.sedes[..k], endpoint, params, net);
    }
    assert blocks[k][j] == Tag(AsList(resp.body)[j], cfg.sedes[k]) by {
      assert blocks[k] == TagAll(AsList(resp.body), cfg.sedes[k]);
      TagAllAt(AsList(resp.body), cfg.sedes[k], j);
    }
    FlattenAt(blocks, k, j);
    assert Gather(endpoint, params, cfg, net) == local + Flatten(blocks);
  }

  /** Local rows first: position `i` of the merge is the `i`-th local row,
      tagged "local", whether or not the table is federated. */
  lemma GatherLocalFirst(endpoint: string, params: Params, cfg: Settings, net: Network, i: nat)
    requires i < Delivered(net(LocalRequest(cfg, endpoint, params)))
    ensures i < |Gather(endpoint, params, cfg, net)|
    ensures Gather(endpoint, params, cfg, net)[i] == Tag(AsList(net(LocalRequest(cfg, endpoint, params)).body)[i], LOCAL)
  {
    TagAllAt(AsList(net(LocalRequest(cfg, endpoint, params)).body), LOCAL, i);
  }

  /** Data sovereignty: for a table outside the allow-list the answer is the
      local answer alone, whatever the registry and whatever the sites
      would say. */
  lemma LocalOnlyIgnoresSites(endpoint: string, params: Params, cfg: Settings, cfg': Settings, net: Network, net': Network)
    requires !Federated(endpoint)
    requires cfg'.postgrestUrl == cfg.postgrestUrl
    requires net'(LocalRequest(cfg, endpoint, params)) == net(LocalRequest(cfg, endpoint, params))
    ensures Gather(endpoint, params, cfg', net') == Gather(endpoint, params, cfg, net)
  {
  }

  /** A failing site only removes its own rows: a merge in which site `k`
      raises or answers non-200 equals the merge over the registry without
      that site, so every other site's rows and the local rows all remain. */
  lemma FailingSiteIsolated(endpoint: string, params: Params, cfg: Settings, net: Network, k: nat)
    requires k < |cfg.sedes|
    requires Delivered(net(RelayRequest(cfg.sedes[k], endpoint, params))) == 0
    ensures Gather(endpoint, params, cfg, net)
         == Gather(endpoint, params, cfg.(sedes := cfg.sedes[..k] + cfg.sedes[k + 1..]), net)
  {
    var blocks := SiteBlocks(cfg.sedes, endpoint, params, net);
    FlattenSkipEmpty(blocks, k);
    assert blocks[..k] + blocks[k + 1..] == SiteBlocks(cfg.sedes[..k] + cfg.sedes[k + 1..], endpoint, params, net);
  }

  /** Every dict in the merge carries exactly one origin tag: "local" or the
      address of a registered site. */
  lemma GatherOrigins(endpoint: string, params: Params, cfg: Settings, net: Network, i: nat)
    requires i < |Gather(endpoint, params, cfg, net)| && Gather(endpoint, params, cfg, net)[i].Obj?
    ensures SEDE_ORIGEN in Gather(endpoint, params, cfg, net)[i].fields
    ensures var tag := Gather(endpoint, params, cfg, net)[i].fields[SEDE_ORIGEN];
      tag.Str? && (tag.s == LOCAL || tag.s in cfg.sedes)
  {
    var local := Received(net(LocalRequest(cfg, endpoint, params)), LOCAL);
    if i < |local| {
      TagAllAt(AsList(net(LocalRequest(cfg, endpoint, params)).body), LOCAL, i);
    } else {
      var blocks := SiteBlocks(cfg.sedes, endpoint, params, net);
      var k, j := FlattenLocate(blocks, i - |local|);
      FlattenAt(blocks, k, j);
      TagAllAt(AsList(net(RelayRequest(cfg.sedes[k], endpoint, params)).body), cfg.sedes[k], j);
    }
  }
}
