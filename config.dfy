/** The gateway's settings, read once from the environment at start-up
    (`core/config.py`; `main.py` parses the site registry the same way). */
module Config {
  import opened Text
  import opened Federation

  /** The process environment. */
  type Env = map<string, string>

  const DEFAULT_POSTGREST_URL: string := "http://localhost:3000"
  const DEFAULT_HAPI_FHIR_URL: string := "http://localhost:8080/fhir"
  const DEFAULT_JWT_SECRET: string := "supersecretkey"
  const JWT_ALGORITHM: string := "HS256"
  const JWT_EXPIRATION_HOURS: nat := 24

  /** `os.getenv(key, default)`. */
  function GetEnv(env: Env, key: string, default: string): string
  {
    if key in env then env[key] else default
  }

  /** `[url.strip() for url in parts if url.strip()]`. */
  function KeepStripped(parts: seq<string>): (r: seq<string>)
    ensures |r| <= |parts|
  {
    if parts == [] then []
    else Kept(parts[0]) + KeepStripped(parts[1..])
  }

  /** What one piece contributes: its stripped text, unless that is blank. */
  function Kept(p: string): (r: seq<string>)
    ensures |r| <= 1
  {
    if Strip(p) != [] then [Strip(p)] else []
  }

  /** The site registry: the comma-separated list, each entry stripped of
      surrounding whitespace, blank entries dropped. */
  function ParseSedes(s: string): seq<string>
  {
    KeepStripped(Split(s, ','))
  }

  /** A registry entry is never blank, has no whitespace at either end and
      no comma. */
  predicate WellFormedSede(u: string)
  {
    u != [] && !IsSpace(u[0]) && !IsSpace(u[|u| - 1]) && NoComma(u)
  }

  predicate NoComma(u: string)
  {
    Avoids(u, ',')
  }

  /** A piece without commas strips to a well-formed entry, if any. */
  lemma StripWellFormed(p: string)
    requires NoComma(p)
    ensures Strip(p) != [] ==> WellFormedSede(Strip(p))
  {
    StripEnds(p);
    var a := StripIsSlice(p);
    AvoidsSlice(p, ',', a, a + |Strip(p)|);
  }

  lemma {:induction false} KeepStrippedSpec(parts: seq<string>)
    requires forall p :: p in parts ==> NoComma(p)
    ensures forall u :: u in KeepStripped(parts) ==> WellFormedSede(u)
  {
    if parts != [] {
      assert forall p :: p in parts[1..] ==> p in parts;
      KeepStrippedSpec(parts[1..]);
      StripWellFormed(parts[0]);
      assert KeepStripped(parts) == Kept(parts[0]) + KeepStripped(parts[1..]);
    }
  }

  /** Every entry of the parsed registry is well formed, and there are at
      most as many entries as comma-separated pieces. */
  lemma ParseSedesSpec(s: string)
    ensures forall i :: 0 <= i < |ParseSedes(s)| ==> WellFormedSede(ParseSedes(s)[i])
    ensures |ParseSedes(s)| <= Count(s, ',') + 1
  {
    var parts := Split(s, ',');
    SplitSpec(s, ',');
    assert forall p :: p in parts ==> NoComma(p);
    KeepStrippedSpec(parts);
    assert forall i :: 0 <= i < |ParseSedes(s)| ==> ParseSedes(s)[i] in ParseSedes(s);
  }

  /** An unset or blank variable leaves the registry empty: the site runs
      stand-alone and never fans out. */
  lemma BlankRegistryIsEmpty(s: string)
    requires forall i :: 0 <= i < |s| ==> IsSpace(s[i])
    ensures ParseSedes(s) == []
  {
    StripSpec(s);
    assert Split(s, ',') == [s] by {
      SplitSpec(s, ',');
      NoSepSplit(s, ',');
    }
  }

  lemma {:induction false} NoSepSplit(s: string, sep: char)
    requires forall j :: 0 <= j < |s| ==> s[j] != sep
    ensures Split(s, sep) == [s]
  {
    if s != [] {
      NoSepSplit(s[1..], sep);
      assert [s[0]] + s[1..] == s;
    }
  }

  lemma {:induction false} KeepStrippedAppend(a: seq<string>, b: seq<string>)
    ensures KeepStripped(a + b) == KeepStripped(a) + KeepStripped(b)
  {
    if a != [] {
      var ab := a + b;
      assert ab[0] == a[0] && ab[1..] == a[1..] + b;
      KeepStrippedAppend(a[1..], b);
      assert KeepStripped(ab) == Kept(a[0]) + KeepStripped(ab[1..]);
      assert KeepStripped(a) == Kept(a[0]) + KeepStripped(a[1..]);
    } else {
      assert a + b == b;
    }
  }

  /** Joining two registry strings with a comma joins the registries. */
  lemma ParseSedesConcat(a: string, b: string)
    ensures ParseSedes(a + "," + b) == ParseSedes(a) + ParseSedes(b)
  {
    SplitConcat(a, b, ',');
    KeepStrippedAppend(Split(a, ','), Split(b, ','));
  }

  /** `",".join(parts)` split again gives the parts back when none holds a
      comma. */
  lemma {:induction false} SplitJoin(parts: seq<string>)
    requires |parts| >= 1
    requires forall i :: 0 <= i < |parts| ==> NoComma(parts[i])
    ensures Split(Join(parts, ','), ',') == parts
  {
    NoSepSplit(parts[0], ',');
    if |parts| > 1 {
      SplitJoin(parts[1..]);
      SplitConcat(parts[0], Join(parts[1..], ','), ',');
      assert parts == [parts[0]] + parts[1..];
    }
  }

  /** Entries that are already well formed are all kept, unchanged. */
  lemma {:induction false} KeepStrippedWellFormed(parts: seq<string>)
    requires forall i :: 0 <= i < |parts| ==> WellFormedSede(parts[i])
    ensures KeepStripped(parts) == parts
  {
    if parts != [] {
      KeepStrippedWellFormed(parts[1..]);
      var p := parts[0];
      assert LStrip(p) == p;
      assert RStrip(p) == p;
      assert parts == [p] + parts[1..];
    }
  }

  /** Writing a parsed registry back as `SEDES_URLS` and parsing it again
      gives the same registry. */
  lemma ParseSedesRoundTrip(s: string)
    ensures ParseSedes(Join(ParseSedes(s), ',')) == ParseSedes(s)
  {
    var r := ParseSedes(s);
    if r == [] {
      BlankRegistryIsEmpty(Join(r, ','));
    } else {
      ParseSedesSpec(s);
      SplitJoin(r);
      KeepStrippedWellFormed(r);
    }
  }

  /** The settings the coordinator reads. */
  datatype GatewaySettings = GatewaySettings(
    postgrestUrl: string,
    hapiFhirUrl: string,
    sedes: seq<string>,
    jwtSecret: string,
    jwtAlgorithm: string,
    jwtExpirationHours: nat)

  /** `settings = Settings()`: every value from the environment, with the
      defaults of the source. */
  function Load(env: Env): GatewaySettings
  {
    GatewaySettings(
      GetEnv(env, "POSTGREST_URL", DEFAULT_POSTGREST_URL),
      GetEnv(env, "HAPI_FHIR_URL", DEFAULT_HAPI_FHIR_URL),
      ParseSedes(GetEnv(env, "SEDES_URLS", "")),
      GetEnv(env, "JWT_SECRET", DEFAULT_JWT_SECRET),
      JWT_ALGORITHM,
      JWT_EXPIRATION_HOURS)
  }

  /** Unset variables take the source's defaults; the signing algorithm and
      the token lifetime are fixed whatever the environment holds. */
  lemma LoadDefaults(env: Env)
    ensures "POSTGREST_URL" !in env ==> Load(env).postgrestUrl == DEFAULT_POSTGREST_URL
    ensures "HAPI_FHIR_URL" !in env ==> Load(env).hapiFhirUrl == DEFAULT_HAPI_FHIR_URL
    ensures "JWT_SECRET" !in env ==> Load(env).jwtSecret == DEFAULT_JWT_SECRET
    ensures Load(env).jwtAlgorithm == "HS256" && Load(env).jwtExpirationHours == 24
  {
  }

  /** The registry is the parsed `SEDES_URLS`; without that variable it is
      empty, so the site runs stand-alone. */
  lemma LoadRegistry(env: Env)
    ensures "SEDES_URLS" !in env ==> Load(env).sedes == []
    ensures "SEDES_URLS" in env ==> Load(env).sedes == ParseSedes(env["SEDES_URLS"])
  {
    if "SEDES_URLS" !in env {
      BlankRegistryIsEmpty("");
    }
  }

  /** The part of the settings the federation coordinator uses. */
  function CoordinatorSettings(g: GatewaySettings): Federation.Settings
  {
    Federation.Settings(g.postgrestUrl, g.sedes)
  }
}
