/** The episode list of `get_historia_clinica` and `get_doctor_pacientes`
    (`main.py`): `historias.sort(key=lambda x: x.get("fecha", ""),
    reverse=True)`, a stable sort, newest first. */
module History {
  import opened Text
  import opened Records
  import Pacientes

  // ---------------------------------------------------------------------------
  // Sort keys
  // ---------------------------------------------------------------------------

  /** `x.get("fecha", "")` for a dict. */
  function Key(it: Item): Value
  {
    if it.Obj? then GetOr(it.fields, FECHA, Str("")) else Null
  }

  /** `a < b` on two keys of the same kind. */
  predicate KeyLtV(a: Value, b: Value)
  {
    if a.Num? && b.Num? then a.x < b.x
    else if a.Str? && b.Str? then LexLt(a.s, b.s)
    else false
  }

  predicate KeyLt(a: Item, b: Item)
  {
    KeyLtV(Key(a), Key(b))
  }

  lemma KeyLtAsymmetric(a: Item, b: Item)
    ensures KeyLt(a, b) ==> !KeyLt(b, a) && Key(a) != Key(b)
  {
    if KeyLt(a, b) && Key(a).Str? && Key(b).Str? && KeyLt(b, a) {
      LexLeAntisymmetric(Key(a).s, Key(b).s);
    }
  }

  /** Python computes every key (raising on an element that is not a dict)
      and then compares keys pairwise; with two or more elements every
      element takes part in some comparison and each pair adjacent in the
      result is compared, so the sort raises unless all keys are strings or
      all are numbers. One element is never compared. */
  predicate Sortable(s: seq<Item>)
  {
    && (forall i :: 0 <= i < |s| ==> s[i].Obj?)
    && (|s| <= 1 || (forall i :: 0 <= i < |s| ==> Key(s[i]).Str?) || (forall i :: 0 <= i < |s| ==> Key(s[i]).Num?))
  }

  // ---------------------------------------------------------------------------
  // The order the sort produces
  // ---------------------------------------------------------------------------

  /** Insert `x` after every element whose key is not smaller than its own,
      scanning from the back: ties keep `x` after the earlier elements. */
  function InsertDesc(s: seq<Item>, x: Item): (r: seq<Item>)
    ensures |r| == |s| + 1
  {
    if s == [] || !KeyLt(s[|s| - 1], x) then s + [x]
    else InsertDesc(s[..|s| - 1], x) + [s[|s| - 1]]
  }

  /** The result of the stable descending sort. */
  function SortDesc(s: seq<Item>): (r: seq<Item>)
    ensures |r| == |s|
  {
    if s == [] then [] else InsertDesc(SortDesc(s[..|s| - 1]), s[|s| - 1])
  }

  /** No element is followed by one with a larger key. */
  predicate Descending(s: seq<Item>)
  {
    forall i :: 0 < i < |s| ==> !KeyLt(s[i - 1], s[i])
  }

  lemma {:induction false} InsertDescPerm(s: seq<Item>, x: Item)
    ensures multiset(InsertDesc(s, x)) == multiset(s) + multiset{x}
  {
    if s != [] && KeyLt(s[|s| - 1], x) {
      InsertDescPerm(s[..|s| - 1], x);
      assert s == s[..|s| - 1] + [s[|s| - 1]];
    }
  }

  /** The sort is a permutation of the episodes. */
  lemma {:induction false} SortDescPerm(s: seq<Item>)
    ensures multiset(SortDesc(s)) == multiset(s)
  {
    if s != [] {
      SortDescPerm(s[..|s| - 1]);
      InsertDescPerm(SortDesc(s[..|s| - 1]), s[|s| - 1]);
      assert s == s[..|s| - 1] + [s[|s| - 1]];
    }
  }

  lemma {:induction false} InsertDescLast(s: seq<Item>, x: Item)
    requires s != []
    ensures var r := InsertDesc(s, x);
      r[|r| - 1] == x || r[|r| - 1] == s[|s| - 1]
  {
  }

  lemma {:induction false} InsertDescDescending(s: seq<Item>, x: Item)
    requires Descending(s)
    ensures Descending(InsertDesc(s, x))
  {
    if s != [] && KeyLt(s[|s| - 1], x) {
      var init, last := s[..|s| - 1], s[|s| - 1];
      InsertDescDescending(init, x);
      var t := InsertDesc(init, x);
      var r := t + [last];
      KeyLtAsymmetric(last, x);
      if init != [] {
        InsertDescLast(init, x);
        assert !KeyLt(init[|init| - 1], last) by {
          assert init[|init| - 1] == s[|s| - 2];
        }
      }
      forall i | 0 < i < |r| ensures !KeyLt(r[i - 1], r[i]) {
        if i < |t| {
          assert r[i - 1] == t[i - 1] && r[i] == t[i];
        }
      }
    }
  }

  /** Adjacent episodes never increase in date. */
  lemma {:induction false} SortDescDescending(s: seq<Item>)
    ensures Descending(SortDesc(s))
  {
    if s != [] {
      SortDescDescending(s[..|s| - 1]);
      InsertDescDescending(SortDesc(s[..|s| - 1]), s[|s| - 1]);
    }
  }

  /** The episode as a one-element selection when its key is `k`. */
  function Pick(x: Item, k: Value): seq<Item>
  {
    if Key(x) == k then [x] else []
  }

  /** The episodes whose key is `k`, in order. */
  function WithKey(s: seq<Item>, k: Value): seq<Item>
  {
    if s == [] then [] else WithKey(s[..|s| - 1], k) + Pick(s[|s| - 1], k)
  }

  lemma {:induction false} WithKeySnoc(s: seq<Item>, x: Item, k: Value)
    ensures WithKey(s + [x], k) == WithKey(s, k) + Pick(x, k)
  {
    assert (s + [x])[..|s + [x]| - 1] == s;
  }

  lemma {:induction false} InsertDescWithKey(s: seq<Item>, x: Item, k: Value)
    ensures WithKey(InsertDesc(s, x), k) == WithKey(s, k) + Pick(x, k)
  {
    if s == [] || !KeyLt(s[|s| - 1], x) {
      InsertDescStop(s, x);
      WithKeySnoc(s, x, k);
    } else {
      InsertDescWithKey(s[..|s| - 1], x, k);
      InsertDescPast(s, x, k);
    }
  }

  /** The inductive step of `InsertDescWithKey`: `x` passes the last
      element, whose key differs from its own. */
  lemma InsertDescPast(s: seq<Item>, x: Item, k: Value)
    requires s != [] && KeyLt(s[|s| - 1], x)
    requires WithKey(InsertDesc(s[..|s| - 1], x), k) == WithKey(s[..|s| - 1], k) + Pick(x, k)
    ensures WithKey(InsertDesc(s, x), k) == WithKey(s, k) + Pick(x, k)
  {
    var init, last := s[..|s| - 1], s[|s| - 1];
    var t := InsertDesc(init, x);
    assert InsertDesc(s, x) == t + [last];
    WithKeySnoc(t, last, k);
    PickSwap(last, x, k);
    SwapLast(WithKey(init, k), Pick(x, k), Pick(last, k));
  }

  lemma SwapLast<T>(a: seq<T>, b: seq<T>, c: seq<T>)
    requires b + c == c + b
    ensures a + b + c == a + c + b
  {
    assert a + b + c == a + (b + c);
    assert a + c + b == a + (c + b);
  }

  /** An episode that sorts strictly after another never shares its key. */
  lemma PickSwap(last: Item, x: Item, k: Value)
    requires KeyLt(last, x)
    ensures Pick(x, k) + Pick(last, k) == Pick(last, k) + Pick(x, k)
  {
    KeyLtAsymmetric(last, x);
  }

  /** Stability: the episodes that share a date keep their original
      relative order. */
  lemma {:induction false} SortDescStable(s: seq<Item>, k: Value)
    ensures WithKey(SortDesc(s), k) == WithKey(s, k)
  {
    if s != [] {
      SortDescStable(s[..|s| - 1], k);
      InsertDescWithKey(SortDesc(s[..|s| - 1]), s[|s| - 1], k);
    }
  }

  /** With comparable keys, "never increases" holds between any two
      positions, not only neighbours. */
  lemma SortedPairwise(s: seq<Item>, i: nat, j: nat)
    requires Sortable(s)
    requires i < j < |SortDesc(s)|
    ensures !KeyLt(SortDesc(s)[i], SortDesc(s)[j])
  {
    var r := SortDesc(s);
    SortDescDescending(s);
    SortDescPerm(s);
    assert forall y :: y in r ==> y in s by {
      forall y | y in r ensures y in s {
        assert y in multiset(r);
      }
    }
    DescendingPairwise(r, i, j);
  }

  lemma {:induction false} DescendingPairwise(r: seq<Item>, i: nat, j: nat)
    requires Descending(r) && i < j < |r|
    requires (forall y :: y in r ==> Key(y).Str?) || (forall y :: y in r ==> Key(y).Num?)
    ensures !KeyLt(r[i], r[j])
    decreases j - i
  {
    if j > i + 1 {
      DescendingPairwise(r, i + 1, j);
      assert !KeyLt(r[i], r[i + 1]);
      var a, b, c := Key(r[i]), Key(r[i + 1]), Key(r[j]);
      if a.Str? && b.Str? && c.Str? {
        NotLexLtIsLexGe(a.s, b.s);
        NotLexLtIsLexGe(b.s, c.s);
        LexLeTransitive(c.s, b.s, a.s);
        NotLexLtIsLexGe(a.s, c.s);
      }
    }
  }

  /** One step of the scan from the back: an element smaller than `x`
      moves behind the insertion point. */
  lemma InsertDescShift(p: seq<Item>, x: Item, j: nat)
    requires 0 < j <= |p| && KeyLt(p[j - 1], x)
    ensures InsertDesc(p[..j], x) + p[j..] == InsertDesc(p[..j - 1], x) + p[j - 1..]
  {
    assert p[..j][..j - 1] == p[..j - 1];
    assert p[j - 1..] == [p[j - 1]] + p[j..];
  }

  // ---------------------------------------------------------------------------
  // The sort in place
  // ---------------------------------------------------------------------------

  /** `historias.sort(...)` on the list in place: an insertion sort over
      the prefix sorted so far. */
  method SortNewestFirst(a: array<Item>)
    modifies a
    ensures a[..] == SortDesc(old(a[..]))
  {
    ghost var original := a[..];
    var i := 0;
    while i < a.Length
      invariant 0 <= i <= a.Length
      invariant a[..] == SortDesc(original[..i]) + original[i..]
    {
      SortStep(original, i);
      InsertAt(a, i);
      i := i + 1;
    }
    assert original[..a.Length] == original;
  }

  /** Before pass `i`: the sorted prefix, then `original[i]`, then the
      rest; after it, the prefix one longer. */
  lemma SortStep(original: seq<Item>, i: nat)
    requires i < |original|
    ensures var cur := SortDesc(original[..i]) + original[i..];
      && cur[..i] == SortDesc(original[..i]) && cur[i] == original[i] && cur[i + 1..] == original[i + 1..]
      && InsertDesc(SortDesc(original[..i]), original[i]) + original[i + 1..]
         == SortDesc(original[..i + 1]) + original[i + 1..]
  {
    assert original[..i + 1][..i] == original[..i];
  }

  /** Moves `a[i]` into the sorted prefix `a[..i]`, shifting every element
      with a smaller key one place right; the rest of the array is left
      alone. */
  method InsertAt(a: array<Item>, i: nat)
    requires i < a.Length
    modifies a
    ensures a[..] == InsertDesc(old(a[..i]), old(a[i])) + old(a[i + 1..])
  {
    var x := a[i];
    ghost var prefix, rest := a[..i], a[i + 1..];
    var j := i;
    ShiftStart(a[..], i);
    while j > 0 && KeyLt(a[j - 1], x)
      invariant 0 <= j <= i
      invariant Shifted(a[..], prefix, rest, j)
      invariant InsertDesc(prefix, x) == InsertDesc(prefix[..j], x) + prefix[j..]
    {
      ghost var cur := a[..];
      InsertDescShift(prefix, x, j);
      a[j] := a[j - 1];
      assert a[..] == cur[j := cur[j - 1]];
      ShiftStep(cur, prefix, rest, j);
      j := j - 1;
    }
    InsertDescStop(prefix[..j], x);
    ghost var cur := a[..];
    a[j] := x;
    assert a[..] == cur[j := x];
    ShiftDone(cur, prefix, rest, j, x);
  }

  /** During the scan: `prefix[..j]` in place, a hole at `j`, the rest of
      `prefix` one place right, then `rest` untouched. */
  predicate Shifted(cur: seq<Item>, prefix: seq<Item>, rest: seq<Item>, j: nat)
  {
    && j <= |prefix| && |cur| == |prefix| + 1 + |rest|
    && cur[..j] == prefix[..j]
    && cur[j + 1..|prefix| + 1] == prefix[j..]
    && cur[|prefix| + 1..] == rest
  }

  lemma ShiftStart(cur: seq<Item>, i: nat)
    requires i < |cur|
    ensures Shifted(cur, cur[..i], cur[i + 1..], i)
  {
  }

  /** One element moves right into the hole. */
  lemma ShiftStep(cur: seq<Item>, prefix: seq<Item>, rest: seq<Item>, j: nat)
    requires Shifted(cur, prefix, rest, j) && 0 < j
    ensures cur[j - 1] == prefix[j - 1]
    ensures Shifted(cur[j := cur[j - 1]], prefix, rest, j - 1)
  {
    assert cur[j - 1] == cur[..j][j - 1];
    var next := cur[j := cur[j - 1]];
    assert next[..j - 1] == cur[..j - 1] == prefix[..j - 1];
    assert next[j..|prefix| + 1] == [prefix[j - 1]] + prefix[j..];
    assert next[|prefix| + 1..] == cur[|prefix| + 1..];
  }

  /** Writing `x` into the hole finishes the insertion. */
  lemma ShiftDone(cur: seq<Item>, prefix: seq<Item>, rest: seq<Item>, j: nat, x: Item)
    requires Shifted(cur, prefix, rest, j)
    ensures cur[j := x] == prefix[..j] + [x] + prefix[j..] + rest
  {
    var next := cur[j := x];
    assert next == next[..j] + [x] + next[j + 1..|prefix| + 1] + next[|prefix| + 1..];
  }

  /** The scan stops in front of the first element that is not smaller. */
  lemma InsertDescStop(p: seq<Item>, x: Item)
    requires p == [] || !KeyLt(p[|p| - 1], x)
    ensures InsertDesc(p, x) == p + [x]
  {
  }

  /** The sort of the episode list: raises (500) when the keys cannot be
      compared, otherwise newest first. */
  function SortOutcome(s: seq<Item>): Result<seq<Item>>
  {
    if Sortable(s) then Ok(SortDesc(s)) else Crash()
  }

  /** `get_historia_clinica` after its gather: the episodes, newest first. */
  method GetHistoriaClinica(historias: Result<seq<Item>>) returns (r: Result<seq<Item>>)
    ensures historias.Err? ==> r == historias
    ensures historias.Ok? ==> r == SortOutcome(historias.value)
  {
    if historias.Err? {
      return historias;
    }
    var s := historias.value;
    if !Sortable(s) {
      return Crash();
    }
    var a := new Item[|s|](i requires 0 <= i < |s| => s[i]);
    assert a[..] == s;
    SortNewestFirst(a);
    r := Ok(a[..]);
  }

  lemma KeyLtVIrreflexive(v: Value)
    ensures !KeyLtV(v, v)
  {
  }

  // ---------------------------------------------------------------------------
  // get_doctor_pacientes: grouping the doctor's episodes by patient
  // ---------------------------------------------------------------------------

  const EDAD: string := "edad"

  /** The entry `pacientes_dict` keeps for one patient. */
  datatype Summary = Summary(edad: Value, ultimaConsulta: Value)

  type Grouping = map<Value, Summary>

  /** The episode belongs to patient `p`. */
  predicate HasPatient(h: Item, p: Value)
  {
    h.Obj? && ID_PACIENTE in h.fields && h.fields[ID_PACIENTE] == p
  }

  /** One turn of the grouping loop: `h["id_paciente"]` is always read;
      `h["edad"]` and `h["fecha"]` only for a patient not yet seen. */
  function GroupStep(g: Grouping, h: Item): Result<Grouping>
  {
    match Field(h, ID_PACIENTE)
    case Err(c, d) => Err(c, d)
    case Ok(p) =>
      if p in g then Ok(g)
      else if EDAD in h.fields && FECHA in h.fields then Ok(g[p := Summary(h.fields[EDAD], h.fields[FECHA])])
      else Crash()
  }

  /** The grouping loop from state `g` over `hs`. */
  function GroupFold(g: Grouping, hs: seq<Item>): (r: Result<Grouping>)
    ensures r.Err? ==> r == Crash()
    decreases |hs|
  {
    if hs == [] then Ok(g)
    else match GroupStep(g, hs[0])
      case Err(_, _) => Crash()
      case Ok(g') => GroupFold(g', hs[1..])
  }

  /** The grouping loop of `get_doctor_pacientes`. */
  method GroupByPatient(hs: seq<Item>) returns (r: Result<Grouping>)
    ensures r == GroupFold(map[], hs)
  {
    var g: Grouping := map[];
    var i := 0;
    while i < |hs|
      invariant 0 <= i <= |hs|
      invariant GroupFold(map[], hs) == GroupFold(g, hs[i..])
    {
      assert hs[i..][1..] == hs[i + 1..];
      var h := hs[i];
      var id := Field(h, ID_PACIENTE);
      if id.Err? {
        return Crash();
      }
      var p := id.value;
      if p !in g {
        if !(EDAD in h.fields && FECHA in h.fields) {
          return Crash();
        }
        g := g[p := Summary(h.fields[EDAD], h.fields[FECHA])];
      }
      i := i + 1;
    }
    r := Ok(g);
  }

  /** Entries already in the grouping are never overwritten, and every
      episode's patient ends up in it. */
  lemma {:induction false} GroupFoldCovers(g: Grouping, hs: seq<Item>)
    requires GroupFold(g, hs).Ok?
    ensures forall p :: p in g ==> p in GroupFold(g, hs).value && GroupFold(g, hs).value[p] == g[p]
    ensures forall i :: 0 <= i < |hs| ==> hs[i].Obj? && ID_PACIENTE in hs[i].fields && hs[i].fields[ID_PACIENTE] in GroupFold(g, hs).value
    decreases |hs|
  {
    if hs != [] {
      var g' := GroupStep(g, hs[0]).value;
      GroupFoldCovers(g', hs[1..]);
      forall i | 0 < i < |hs|
        ensures hs[i].Obj? && ID_PACIENTE in hs[i].fields && hs[i].fields[ID_PACIENTE] in GroupFold(g, hs).value
      {
        assert hs[i] == hs[1..][i - 1];
      }
    }
  }

  /** Nothing else enters the grouping: each new entry comes from an
      episode of that patient. */
  lemma {:induction false} GroupFoldSound(g: Grouping, hs: seq<Item>, p: Value)
    requires GroupFold(g, hs).Ok? && p in GroupFold(g, hs).value
    ensures p in g || exists i :: 0 <= i < |hs| && HasPatient(hs[i], p)
    decreases |hs|
  {
    if hs != [] && p !in g {
      var g' := GroupStep(g, hs[0]).value;
      if p !in g' {
        GroupFoldSound(g', hs[1..], p);
        var i :| 0 <= i < |hs[1..]| && HasPatient(hs[1..][i], p);
        assert HasPatient(hs[i + 1], p);
      } else {
        assert HasPatient(hs[0], p);
      }
    }
  }

  /** The first episode of a patient wins: the entry holds its `edad` and
      `fecha`. */
  lemma {:induction false} GroupFoldFirst(g: Grouping, hs: seq<Item>, p: Value) returns (f: nat)
    requires GroupFold(g, hs).Ok? && p in GroupFold(g, hs).value && p !in g
    ensures f < |hs| && HasPatient(hs[f], p)
    ensures forall i :: 0 <= i < f ==> !HasPatient(hs[i], p)
    ensures EDAD in hs[f].fields && FECHA in hs[f].fields
    ensures GroupFold(g, hs).value[p] == Summary(hs[f].fields[EDAD], hs[f].fields[FECHA])
    decreases |hs|
  {
    if hs == [] {
      assert false;
    }
    var g' := GroupStep(g, hs[0]).value;
    if p in g' {
      GroupFoldCovers(g', hs[1..]);
      f := 0;
    } else {
      var f' := GroupFoldFirst(g', hs[1..], p);
      f := f' + 1;
      forall i | 0 <= i < f ensures !HasPatient(hs[i], p) {
        if i > 0 {
          assert hs[i] == hs[1..][i - 1];
        }
      }
    }
  }

  /** The grouping is empty exactly when there are no episodes. */
  lemma GroupFoldEmpty(hs: seq<Item>)
    requires GroupFold(map[], hs).Ok?
    ensures |GroupFold(map[], hs).value| == 0 <==> hs == []
  {
    GroupFoldCovers(map[], hs);
    if hs != [] {
      assert hs[0].fields[ID_PACIENTE] in GroupFold(map[], hs).value;
    }
  }

  /** After the newest-first sort, `ultima_consulta` is the most recent
      `fecha` among the patient's episodes with the doctor. */
  lemma LatestVisit(s: seq<Item>, p: Value, h: Item)
    requires Sortable(s)
    requires GroupFold(map[], SortDesc(s)).Ok?
    requires p in GroupFold(map[], SortDesc(s)).value
    requires h in s && HasPatient(h, p)
    ensures !KeyLtV(GroupFold(map[], SortDesc(s)).value[p].ultimaConsulta, Key(h))
  {
    var hs := SortDesc(s);
    var f := GroupFoldFirst(map[], hs, p);
    SortDescPerm(s);
    assert h in multiset(hs);
    var j :| 0 <= j < |hs| && hs[j] == h;
    assert Key(hs[f]) == hs[f].fields[FECHA];
    if j == f {
      KeyLtVIrreflexive(Key(h));
    } else {
      assert f < j;
      SortedPairwise(s, f, j);
    }
  }

  // ---------------------------------------------------------------------------
  // get_doctor_pacientes: joining the grouping with the patient list
  // ---------------------------------------------------------------------------

  const CEDULA: string := "cedula"

  /** The result row for a patient present in the grouping, reading the
      name columns `nameKey` and `surnameKey` of the patient row. */
  function JoinRow(pac: Record, p: Value, info: Summary, nameKey: string, surnameKey: string): Result<Record>
  {
    if nameKey in pac && surnameKey in pac && CEDULA in pac then
      Ok(map[ID_PACIENTE := p, "Nombres" := pac[nameKey], "Apellidos" := pac[surnameKey],
             CEDULA := pac[CEDULA], EDAD := info.edad, "ultima_consulta" := info.ultimaConsulta])
    else Crash()
  }

  /** The patient loop: every patient row's `id_paciente` is read; rows of
      patients in the grouping produce one result row each, in the order of
      the patient list. */
  function JoinWith(pacs: seq<Item>, g: Grouping, nameKey: string, surnameKey: string): (r: Result<seq<Record>>)
    ensures r.Err? ==> r == Crash()
  {
    if pacs == [] then Ok([])
    else match Field(pacs[0], ID_PACIENTE)
      case Err(_, _) => Crash()
      case Ok(p) =>
        if p !in g then JoinWith(pacs[1..], g, nameKey, surnameKey)
        else match JoinRow(pacs[0].fields, p, g[p], nameKey, surnameKey)
          case Err(_, _) => Crash()
          case Ok(row) => Prepend([row], JoinWith(pacs[1..], g, nameKey, surnameKey))
  }

  /** The ids, in order, of the patient rows whose patient is grouped. */
  function GroupedIds(pacs: seq<Item>, g: Grouping): seq<Value>
  {
    if pacs == [] then []
    else if pacs[0].Obj? && ID_PACIENTE in pacs[0].fields && pacs[0].fields[ID_PACIENTE] in g
    then [pacs[0].fields[ID_PACIENTE]] + GroupedIds(pacs[1..], g)
    else GroupedIds(pacs[1..], g)
  }

  /** The join fails exactly when a patient row lacks `id_paciente`, or a
      grouped patient's row lacks one of the columns read. */
  lemma {:induction false} JoinWithOkIff(pacs: seq<Item>, g: Grouping, nameKey: string, surnameKey: string)
    ensures JoinWith(pacs, g, nameKey, surnameKey).Ok? <==>
      forall i :: 0 <= i < |pacs| ==> (pacs[i].Obj? && ID_PACIENTE in pacs[i].fields &&
        (pacs[i].fields[ID_PACIENTE] in g ==> nameKey in pacs[i].fields && surnameKey in pacs[i].fields && CEDULA in pacs[i].fields))
  {
    if pacs != [] {
      JoinWithOkIff(pacs[1..], g, nameKey, surnameKey);
      assert forall i :: 0 < i < |pacs| ==> pacs[i] == pacs[1..][i - 1];
    }
  }

  /** One row per grouped patient row, in patient-list order (no
      de-duplication), carrying that patient's summary. */
  lemma {:induction false} JoinWithRows(pacs: seq<Item>, g: Grouping, nameKey: string, surnameKey: string)
    requires JoinWith(pacs, g, nameKey, surnameKey).Ok?
    ensures var rows := JoinWith(pacs, g, nameKey, surnameKey).value;
      |rows| == |GroupedIds(pacs, g)|
    ensures var rows := JoinWith(pacs, g, nameKey, surnameKey).value;
      forall k :: 0 <= k < |rows| ==> ID_PACIENTE in rows[k] && rows[k][ID_PACIENTE] == GroupedIds(pacs, g)[k]
    ensures var rows := JoinWith(pacs, g, nameKey, surnameKey).value;
      forall k :: 0 <= k < |rows| ==> (GroupedIds(pacs, g)[k] in g && EDAD in rows[k] && "ultima_consulta" in rows[k]
        && rows[k][EDAD] == g[GroupedIds(pacs, g)[k]].edad
        && rows[k]["ultima_consulta"] == g[GroupedIds(pacs, g)[k]].ultimaConsulta)
  {
    if pacs != [] {
      JoinWithRows(pacs[1..], g, nameKey, surnameKey);
    }
  }

  /** The patient loop of `get_doctor_pacientes`. */
  method JoinPatientsLoop(pacs: seq<Item>, g: Grouping, nameKey: string, surnameKey: string)
    returns (r: Result<seq<Record>>)
    ensures r == JoinWith(pacs, g, nameKey, surnameKey)
  {
    var resultado: seq<Record> := [];
    var i := 0;
    PrependNil(JoinWith(pacs, g, nameKey, surnameKey));
    assert pacs[0..] == pacs;
    while i < |pacs|
      invariant 0 <= i <= |pacs|
      invariant JoinWith(pacs, g, nameKey, surnameKey) == Prepend(resultado, JoinWith(pacs[i..], g, nameKey, surnameKey))
    {
      assert pacs[i..][1..] == pacs[i + 1..];
      var id := Field(pacs[i], ID_PACIENTE);
      if id.Err? {
        return Crash();
      }
      var p := id.value;
      if p in g {
        var row := JoinRow(pacs[i].fields, p, g[p], nameKey, surnameKey);
        if row.Err? {
          return Crash();
        }
        PrependAssoc(resultado, [row.value], JoinWith(pacs[i + 1..], g, nameKey, surnameKey));
        resultado := resultado + [row.value];
      }
      i := i + 1;
    }
    assert pacs[i..] == [] && resultado + [] == resultado;
    r := Ok(resultado);
  }

  /** The patient columns as the code reads them. */
  const NAME_AS_WRITTEN: string := "Nombres"
  const SURNAME_AS_WRITTEN: string := "Apellidos"
  /** The patient columns as the store holds them (`paciente.dict()`). */
  const NAME_COLUMN: string := "nombres"
  const SURNAME_COLUMN: string := "apellidos"

  /** `get_doctor_pacientes` after its two gathers, with the name columns
      it reads as a parameter. The patient list is fetched only when the
      grouping is not empty. */
  function DoctorPacientesWith(historias: Result<seq<Item>>, pacientes: Result<seq<Item>>, nameKey: string, surnameKey: string): Result<seq<Record>>
  {
    if historias.Err? then Err(historias.status, historias.detail)
    else match SortOutcome(historias.value)
      case Err(c, d) => Err(c, d)
      case Ok(sorted) =>
        match GroupFold(map[], sorted)
        case Err(c, d) => Err(c, d)
        case Ok(g) =>
          if |g| == 0 then Ok([])
          else if pacientes.Err? then Err(pacientes.status, pacientes.detail)
          else JoinWith(pacientes.value, g, nameKey, surnameKey)
  }

  /** The endpoint as written: it reads `Nombres`/`Apellidos`. */
  function DoctorPacientesAsWritten(historias: Result<seq<Item>>, pacientes: Result<seq<Item>>): Result<seq<Record>>
  {
    DoctorPacientesWith(historias, pacientes, NAME_AS_WRITTEN, SURNAME_AS_WRITTEN)
  }

  /** The endpoint reading the stored columns `nombres`/`apellidos`. */
  function DoctorPacientesSpec(historias: Result<seq<Item>>, pacientes: Result<seq<Item>>): Result<seq<Record>>
  {
    DoctorPacientesWith(historias, pacientes, NAME_COLUMN, SURNAME_COLUMN)
  }

  /** `get_doctor_pacientes` (with the stored name columns): `historias` and
      `pacientes` are what the two gathers return; `fetched` lists the
      tables gathered. */
  method DoctorPacientes(historias: Result<seq<Item>>, pacientes: Result<seq<Item>>)
    returns (r: Result<seq<Record>>, fetched: seq<string>)
    ensures r == DoctorPacientesSpec(historias, pacientes)
    ensures fetched == [HISTORIAS_TABLE] || fetched == [HISTORIAS_TABLE, PACIENTES_TABLE]
    ensures historias == Ok([]) ==> r == Ok([]) && fetched == [HISTORIAS_TABLE]
  {
    fetched := [HISTORIAS_TABLE];
    var sorted := GetHistoriaClinica(historias);
    if sorted.Err? {
      return Err(sorted.status, sorted.detail), fetched;
    }
    var grouped := GroupByPatient(sorted.value);
    if grouped.Err? {
      return Err(grouped.status, grouped.detail), fetched;
    }
    if |grouped.value| == 0 {
      GroupFoldEmpty(sorted.value);
      return Ok([]), fetched;
    }
    fetched := fetched + [PACIENTES_TABLE];
    if pacientes.Err? {
      return Err(pacientes.status, pacientes.detail), fetched;
    }
    r := JoinPatientsLoop(pacientes.value, grouped.value, NAME_COLUMN, SURNAME_COLUMN);
  }

  // ---------------------------------------------------------------------------
  // What the endpoints promise
  // ---------------------------------------------------------------------------

  /** `get_historia_clinica`: when it answers, the answer holds the same
      episodes, newest first, episodes of one date in their gathered order. */
  lemma HistoriaNewestFirst(s: seq<Item>, i: nat, j: nat, k: Value)
    requires SortOutcome(s).Ok?
    ensures multiset(SortOutcome(s).value) == multiset(s)
    ensures i < j < |s| ==> !KeyLt(SortOutcome(s).value[i], SortOutcome(s).value[j])
    ensures WithKey(SortOutcome(s).value, k) == WithKey(s, k)
  {
    SortDescPerm(s);
    SortDescStable(s, k);
    if i < j < |s| {
      SortedPairwise(s, i, j);
    }
  }

  /** The outcome of the grouping in the corrected endpoint, on success. */
  lemma SpecGrouping(historias: seq<Item>, pacs: seq<Item>) returns (g: Grouping)
    requires DoctorPacientesSpec(Ok(historias), Ok(pacs)).Ok?
    requires DoctorPacientesSpec(Ok(historias), Ok(pacs)).value != []
    ensures Sortable(historias) && GroupFold(map[], SortDesc(historias)) == Ok(g)
    ensures DoctorPacientesSpec(Ok(historias), Ok(pacs)) == JoinWith(pacs, g, NAME_COLUMN, SURNAME_COLUMN)
  {
    g := GroupFold(map[], SortDesc(historias)).value;
  }

  /** One half of "newest": each row's `ultima_consulta` is no older than
      any `fecha` among that patient's episodes. */
  lemma DoctorPacientesLatest(historias: seq<Item>, pacs: seq<Item>, k: nat, h: Item)
    requires DoctorPacientesSpec(Ok(historias), Ok(pacs)).Ok?
    requires k < |DoctorPacientesSpec(Ok(historias), Ok(pacs)).value|
    requires h in historias
    ensures var row := DoctorPacientesSpec(Ok(historias), Ok(pacs)).value[k];
      ID_PACIENTE in row && "ultima_consulta" in row
    ensures var row := DoctorPacientesSpec(Ok(historias), Ok(pacs)).value[k];
      HasPatient(h, row[ID_PACIENTE]) ==> !KeyLtV(row["ultima_consulta"], Key(h))
  {
    var g := SpecGrouping(historias, pacs);
    JoinWithRows(pacs, g, NAME_COLUMN, SURNAME_COLUMN);
    var p := GroupedIds(pacs, g)[k];
    if HasPatient(h, p) {
      LatestVisit(historias, p, h);
    }
  }

  /** The other half of "newest": each row's `ultima_consulta` (and its
      `edad`) is the `fecha` (and `edad`) of one of that patient's
      episodes, so with `DoctorPacientesLatest` it is their maximum. */
  lemma DoctorPacientesLatestReached(historias: seq<Item>, pacs: seq<Item>, k: nat) returns (h: Item)
    requires DoctorPacientesSpec(Ok(historias), Ok(pacs)).Ok?
    requires k < |DoctorPacientesSpec(Ok(historias), Ok(pacs)).value|
    ensures h in historias
    ensures var row := DoctorPacientesSpec(Ok(historias), Ok(pacs)).value[k];
      && ID_PACIENTE in row && HasPatient(h, row[ID_PACIENTE])
      && "ultima_consulta" in row && EDAD in row && FECHA in h.fields && EDAD in h.fields
      && row["ultima_consulta"] == h.fields[FECHA] && row[EDAD] == h.fields[EDAD]
  {
    var g := SpecGrouping(historias, pacs);
    JoinWithRows(pacs, g, NAME_COLUMN, SURNAME_COLUMN);
    var p := GroupedIds(pacs, g)[k];
    var hs := SortDesc(historias);
    var f := GroupFoldFirst(map[], hs, p);
    h := hs[f];
    SortDescPerm(historias);
    assert h in multiset(historias) by {
      assert h in multiset(hs);
    }
  }

  lemma DoctorPacientesSound(historias: seq<Item>, pacs: seq<Item>, k: nat) returns (h: Item)
    requires DoctorPacientesSpec(Ok(historias), Ok(pacs)).Ok?
    requires k < |DoctorPacientesSpec(Ok(historias), Ok(pacs)).value|
    ensures h in historias
    ensures var row := DoctorPacientesSpec(Ok(historias), Ok(pacs)).value[k];
      ID_PACIENTE in row && HasPatient(h, row[ID_PACIENTE])
  {
    var g := SpecGrouping(historias, pacs);
    JoinWithRows(pacs, g, NAME_COLUMN, SURNAME_COLUMN);
    var p := GroupedIds(pacs, g)[k];
    var hs := SortDesc(historias);
    GroupFoldSound(map[], hs, p);
    var i :| 0 <= i < |hs| && HasPatient(hs[i], p);
    h := hs[i];
    SortDescPerm(historias);
    assert h in multiset(historias) by {
      assert h in multiset(hs);
    }
  }

  /** A row written by `create_paciente` carries the lower-case name
      columns and no `Nombres`/`Apellidos`. */
  lemma StoredRowColumns(p: Pacientes.PacienteCreate, hashed: string, id: int)
    ensures var row := Pacientes.RowData(p, hashed)[ID_PACIENTE := Num(id as real)];
      NAME_AS_WRITTEN !in row && SURNAME_AS_WRITTEN !in row
    ensures var row := Pacientes.RowData(p, hashed)[ID_PACIENTE := Num(id as real)];
      NAME_COLUMN in row && SURNAME_COLUMN in row && CEDULA in row
      && row[NAME_COLUMN] == Str(p.nombres) && row[SURNAME_COLUMN] == Str(p.apellidos)
  {
    var d := Pacientes.PlainData(p);
    assert NAME_AS_WRITTEN !in d && SURNAME_AS_WRITTEN !in d;
    assert NAME_COLUMN in d && SURNAME_COLUMN in d && CEDULA in d;
  }

  /** As written, the endpoint fails with 500 whenever the corrected one
      would list a patient whose row lacks `Nombres`: every row the store
      holds. */
  lemma AsWrittenFailsOnStoredRows(historias: seq<Item>, pacs: seq<Item>)
    requires DoctorPacientesSpec(Ok(historias), Ok(pacs)).Ok?
    requires DoctorPacientesSpec(Ok(historias), Ok(pacs)).value != []
    requires forall i :: 0 <= i < |pacs| ==> pacs[i].Obj? && NAME_AS_WRITTEN !in pacs[i].fields
    ensures DoctorPacientesAsWritten(Ok(historias), Ok(pacs)) == Crash()
  {
    var g := SpecGrouping(historias, pacs);
    JoinWithRows(pacs, g, NAME_COLUMN, SURNAME_COLUMN);
    var i := GroupedIdsFrom(pacs, g, 0);
    JoinWithOkIff(pacs, g, NAME_AS_WRITTEN, SURNAME_AS_WRITTEN);
  }

  /** The first grouped id comes from some patient row. */
  lemma {:induction false} GroupedIdsFrom(pacs: seq<Item>, g: Grouping, k: nat) returns (i: nat)
    requires k < |GroupedIds(pacs, g)|
    ensures i < |pacs| && pacs[i].Obj? && ID_PACIENTE in pacs[i].fields && pacs[i].fields[ID_PACIENTE] in g
  {
    if pacs[0].Obj? && ID_PACIENTE in pacs[0].fields && pacs[0].fields[ID_PACIENTE] in g {
      i := 0;
    } else {
      var i' := GroupedIdsFrom(pacs[1..], g, k);
      i := i' + 1;
    }
  }

  /** With the stored columns, rows written by `create_paciente` always
      join. */
  lemma CorrectedJoinsStoredRows(pacs: seq<Item>, g: Grouping)
    requires forall i :: 0 <= i < |pacs| ==> (pacs[i].Obj? && ID_PACIENTE in pacs[i].fields
      && NAME_COLUMN in pacs[i].fields && SURNAME_COLUMN in pacs[i].fields && CEDULA in pacs[i].fields)
    ensures JoinWith(pacs, g, NAME_COLUMN, SURNAME_COLUMN).Ok?
  {
    JoinWithOkIff(pacs, g, NAME_COLUMN, SURNAME_COLUMN);
  }

  const EXAMPLE_EPISODE: Item := Obj(map[ID_PACIENTE := Num(1.0), FECHA := Str("2024-01-01"), EDAD := Num(30.0), "id_doctor" := Num(7.0)])
  /** Patient 1 as the store holds it after `create_paciente`. */
  const EXAMPLE_ROW: Item := Obj(Pacientes.RowData(EXAMPLE_CREATE, "h")[ID_PACIENTE := Num(1.0)])

  /** What the corrected endpoint lists for the example. */
  const EXAMPLE_ANSWER: Record :=
    map[ID_PACIENTE := Num(1.0), "Nombres" := Str("Ana"), "Apellidos" := Str("Paz"), CEDULA := Str("1"),
        EDAD := Num(30.0), "ultima_consulta" := Str("2024-01-01")]

  /** One episode of patient 1 with the doctor and patient 1 as the store
      holds it: as written the endpoint answers 500, corrected it lists the
      patient. */
  lemma DoctorPacientesCounterexample()
    ensures DoctorPacientesAsWritten(Ok([EXAMPLE_EPISODE]), Ok([EXAMPLE_ROW])) == Crash()
    ensures DoctorPacientesSpec(Ok([EXAMPLE_EPISODE]), Ok([EXAMPLE_ROW])) == Ok([EXAMPLE_ANSWER])
  {
    CorrectedExample();
    StoredRowColumns(EXAMPLE_CREATE, "h", 1);
    AsWrittenFailsOnStoredRows([EXAMPLE_EPISODE], [EXAMPLE_ROW]);
  }

  lemma CorrectedExample()
    ensures DoctorPacientesSpec(Ok([EXAMPLE_EPISODE]), Ok([EXAMPLE_ROW])) == Ok([EXAMPLE_ANSWER])
  {
    ExampleSorted();
    ExampleGrouped();
    assert Num(1.0) in EXAMPLE_GROUPING;
    JoinExample();
  }

  /** A single episode is already in order. */
  lemma ExampleSorted()
    ensures SortOutcome([EXAMPLE_EPISODE]) == Ok([EXAMPLE_EPISODE])
  {
    var one := [EXAMPLE_EPISODE];
    assert one[..0] == [] && one[0] == EXAMPLE_EPISODE;
    assert SortDesc(one) == InsertDesc(SortDesc([]), EXAMPLE_EPISODE) == one;
    assert Sortable(one);
  }

  /** The example episode groups into the example grouping. */
  lemma ExampleGrouped()
    ensures GroupFold(map[], [EXAMPLE_EPISODE]) == Ok(EXAMPLE_GROUPING)
  {
    var fields := EXAMPLE_EPISODE.fields;
    assert Field(EXAMPLE_EPISODE, ID_PACIENTE) == Ok(Num(1.0));
    assert EDAD in fields && FECHA in fields;
    assert fields[EDAD] == Num(30.0) && fields[FECHA] == Str("2024-01-01");
    assert GroupStep(map[], EXAMPLE_EPISODE) == Ok(EXAMPLE_GROUPING);
    assert [EXAMPLE_EPISODE][1..] == [];
  }

  /** The doctor's example patients: patient 1, aged 30, last seen on the
      day of the example episode. */
  const EXAMPLE_GROUPING: Grouping := map[Num(1.0) := Summary(Num(30.0), Str("2024-01-01"))]

  lemma JoinExample()
    ensures JoinWith([EXAMPLE_ROW], EXAMPLE_GROUPING, NAME_COLUMN, SURNAME_COLUMN) == Ok([EXAMPLE_ANSWER])
  {
    var row := EXAMPLE_ROW;
    var g := EXAMPLE_GROUPING;
    StoredRowColumns(EXAMPLE_CREATE, "h", 1);
    assert row.fields[CEDULA] == Str("1");
    assert JoinRow(row.fields, Num(1.0), g[Num(1.0)], NAME_COLUMN, SURNAME_COLUMN) == Ok(EXAMPLE_ANSWER);
    assert JoinWith([row][1..], g, NAME_COLUMN, SURNAME_COLUMN) == Ok([]);
    assert Field([row][0], ID_PACIENTE) == Ok(Num(1.0));
    assert [EXAMPLE_ANSWER] + [] == [EXAMPLE_ANSWER];
  }

  const EXAMPLE_CREATE: Pacientes.PacienteCreate :=
    Pacientes.PacienteCreate("Ana", "Paz", "1", None, None, None, "ana", "secreto")
}
