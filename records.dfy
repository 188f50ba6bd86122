/** The JSON the gateway reads from its record stores: rows are objects mapping
    column names to scalars, and an endpoint either returns a value or raises
    an HTTP error. */
module Records {
  import opened Text

  /** A JSON scalar: text, a number (Python compares int and float by value,
      so one numeric kind suffices), or null. */
  datatype Value = Str(s: string) | Num(x: real) | Null

  /** One row as a Python dict. */
  type Record = map<string, Value>

  /** An element of a JSON array: a dict, or some other value. */
  datatype Item = Obj(fields: Record) | Scalar(v: Value)

  /** The tables and columns the endpoints read by name. */
  const PACIENTES_TABLE: string := "pacientes"
  const HISTORIAS_TABLE: string := "historia_clinica"
  const ID_PACIENTE: string := "id_paciente"
  const FECHA: string := "fecha"

  /** A response body as `response.json()` returns it. */
  datatype Json = Array(items: seq<Item>) | Object(obj: Record)

  datatype Option<T> = None | Some(value: T)

  /** What an endpoint produces: a value, or the HTTP error it raises. */
  datatype Result<T> = Ok(value: T) | Err(status: int, detail: string)

  /** FastAPI's answer to an exception the handler does not catch
      (KeyError, TypeError, AttributeError). */
  const INTERNAL_ERROR: string := "Internal Server Error"

  function Crash<T>(): Result<T>
  {
    Err(500, INTERNAL_ERROR)
  }

  /** `item[key]`: raises unless the item is a dict holding the key. */
  function Field(it: Item, key: string): Result<Value>
  {
    if it.Obj? && key in it.fields then Ok(it.fields[key]) else Crash()
  }

  /** `record.get(key, default)`. */
  function GetOr(r: Record, key: string, default: Value): Value
  {
    if key in r then r[key] else default
  }

  /** Python's `a <= b` on two scalars: numbers by value, text
      lexicographically, anything else raises TypeError. */
  function ValueLe(a: Value, b: Value): Result<bool>
  {
    if a.Num? && b.Num? then Ok(a.x <= b.x)
    else if a.Str? && b.Str? then Ok(LexLe(a.s, b.s))
    else Crash()
  }

  /** Putting rows in front of a result that may be an error: the way an
      append loop's output is built when a later step can still raise. */
  function Prepend(acc: seq<Record>, r: Result<seq<Record>>): Result<seq<Record>>
  {
    if r.Ok? then Ok(acc + r.value) else r
  }

  lemma PrependNil(r: Result<seq<Record>>)
    ensures Prepend([], r) == r
  {
    if r.Ok? {
      assert [] + r.value == r.value;
    }
  }

  lemma PrependAssoc(a: seq<Record>, b: seq<Record>, r: Result<seq<Record>>)
    ensures Prepend(a, Prepend(b, r)) == Prepend(a + b, r)
  {
    if r.Ok? {
      assert a + (b + r.value) == (a + b) + r.value;
    }
  }

  /** Concatenation regroups freely; used where a trace of requests grows
      one stage at a time. */
  lemma ConcatAssoc<T>(a: seq<T>, b: seq<T>, c: seq<T>)
    ensures a + (b + c) == a + b + c
  {
  }
}
