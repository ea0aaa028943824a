/**
 * The request-side filter list of the filtered search endpoints and the two
 * values the handlers derive from it before calling the searcher: a
 * field-to-value dictionary and a single `exact_match` flag.
 */
module Filters {
  import opened Wrappers

  /**
   * One filter of a request body. `exactMatch` is `Optional[bool]`: the
   * client may send `null`, and leaving the key out gives `Some(true)`.
   */
  datatype Filter = Filter(field: string, value: string, exactMatch: Option<bool>)

  /** A filter parsed from a body that leaves `exact_match` out. */
  function DefaultFilter(field: string, value: string): (f: Filter)
    ensures f.field == field && f.value == value
    ensures Truthy(f.exactMatch)
  {
    Filter(field, value, Some(true))
  }

  /** Python truthiness of an `Optional[bool]`: only `True` is truthy. */
  predicate Truthy(flag: Option<bool>)
  {
    flag == Some(true)
  }

  /** `request.filters or []`: a missing list and an empty list are the same. */
  function OrEmpty(filters: Option<seq<Filter>>): (fs: seq<Filter>)
    ensures filters.Some? ==> fs == filters.value
    ensures filters.None? ==> fs == []
  {
    match filters
    case None => []
    case Some(fs) => fs
  }

  /** The set of fields the filters name. */
  function Fields(fs: seq<Filter>): set<string>
  {
    set i | 0 <= i < |fs| :: fs[i].field
  }

  /**
   * `{f.field: f.value for f in fs}`: the comprehension inserts in list
   * order, so a later filter on the same field overwrites an earlier one.
   */
  function FieldValueMap(fs: seq<Filter>): (m: map<string, string>)
    ensures m.Keys == Fields(fs)
  {
    if |fs| == 0 then map[]
    else
      var last := fs[|fs| - 1];
      assert fs == fs[..|fs| - 1] + [last];
      assert Fields(fs) == Fields(fs[..|fs| - 1]) + {last.field};
      FieldValueMap(fs[..|fs| - 1])[last.field := last.value]
  }

  /** `all(f.exact_match for f in fs)`: stops at the first falsy flag. */
  function AllExact(fs: seq<Filter>): bool
  {
    if |fs| == 0 then true
    else if !Truthy(fs[0].exactMatch) then false
    else AllExact(fs[1..])
  }

  /** No filter after position `i` names the same field as `fs[i]`. */
  predicate LastForField(fs: seq<Filter>, i: int)
    requires 0 <= i < |fs|
  {
    forall j :: i < j < |fs| ==> fs[j].field != fs[i].field
  }

  /**
   * The dictionary a filtered search handler passes to the searcher: its
   * keys are the filter fields, and each field maps to the value of the last
   * filter naming it.
   */
  function RequestFilterMap(filters: Option<seq<Filter>>): (m: map<string, string>)
    ensures m.Keys == Fields(OrEmpty(filters))
    ensures forall i :: 0 <= i < |OrEmpty(filters)| && LastForField(OrEmpty(filters), i) ==>
      OrEmpty(filters)[i].field in m && m[OrEmpty(filters)[i].field] == OrEmpty(filters)[i].value
    ensures filters.None? ==> m == map[]
  {
    LastFiltersWin(OrEmpty(filters));
    FieldValueMap(OrEmpty(filters))
  }

  /** The `exact_match` flag a filtered search handler passes to the searcher. */
  function RequestExactMatch(filters: Option<seq<Filter>>): (b: bool)
    ensures b <==> forall i :: 0 <= i < |OrEmpty(filters)| ==> Truthy(OrEmpty(filters)[i].exactMatch)
    ensures filters.None? ==> b
  {
    AllExactIff(OrEmpty(filters));
    AllExact(OrEmpty(filters))
  }

  /**
   * Last one wins: the value mapped to a field is the value of the last
   * filter naming that field.
   */
  lemma {:induction false} LastFilterWins(fs: seq<Filter>, i: int)
    requires 0 <= i < |fs|
    requires forall j :: i < j < |fs| ==> fs[j].field != fs[i].field
    ensures fs[i].field in FieldValueMap(fs)
    ensures FieldValueMap(fs)[fs[i].field] == fs[i].value
  {
    if i < |fs| - 1 {
      LastFilterWins(fs[..|fs| - 1], i);
    }
  }

  /** `LastFilterWins` for every position at once. */
  lemma LastFiltersWin(fs: seq<Filter>)
    ensures forall i :: 0 <= i < |fs| && LastForField(fs, i) ==>
      fs[i].field in FieldValueMap(fs) && FieldValueMap(fs)[fs[i].field] == fs[i].value
  {
    forall i | 0 <= i < |fs| && LastForField(fs, i)
      ensures fs[i].field in FieldValueMap(fs) && FieldValueMap(fs)[fs[i].field] == fs[i].value
    {
      LastFilterWins(fs, i);
    }
  }

  /**
   * Flattening a concatenation is the union of the two flattenings, the
   * right-hand list winning on the fields both name.
   */
  lemma {:induction false} FieldValueMapAppend(a: seq<Filter>, b: seq<Filter>)
    ensures FieldValueMap(a + b) == FieldValueMap(a) + FieldValueMap(b)
  {
    if |b| > 0 {
      var init, last := b[..|b| - 1], b[|b| - 1];
      FieldValueMapAppend(a, init);
      assert (a + b)[..|a + b| - 1] == a + init;
      assert (a + b)[|a + b| - 1] == last;
      calc {
        FieldValueMap(a + b);
        FieldValueMap(a + init)[last.field := last.value];
        (FieldValueMap(a) + FieldValueMap(init))[last.field := last.value];
        { UpdateUnion(FieldValueMap(a), FieldValueMap(init), last.field, last.value); }
        FieldValueMap(a) + FieldValueMap(init)[last.field := last.value];
        FieldValueMap(a) + FieldValueMap(b);
      }
    } else {
      assert a + b == a;
    }
  }

  /** Updating a union updates its right-hand side. */
  lemma UpdateUnion(m1: map<string, string>, m2: map<string, string>, k: string, v: string)
    ensures (m1 + m2)[k := v] == m1 + m2[k := v]
  {
  }

  /** `all` over the flags holds exactly when every flag is `True`. */
  lemma {:induction false} AllExactIff(fs: seq<Filter>)
    ensures AllExact(fs) <==> forall i :: 0 <= i < |fs| ==> Truthy(fs[i].exactMatch)
  {
    if |fs| > 0 {
      AllExactIff(fs[1..]);
      if Truthy(fs[0].exactMatch) {
        forall i | 0 < i < |fs| ensures fs[i] == fs[1..][i - 1] { }
      }
    }
  }

  /** The flag over a concatenation is the conjunction of the two flags. */
  lemma {:induction false} AllExactAppend(a: seq<Filter>, b: seq<Filter>)
    ensures AllExact(a + b) == (AllExact(a) && AllExact(b))
  {
    if |a| > 0 {
      AllExactAppend(a[1..], b);
      assert (a + b)[1..] == a[1..] + b;
    } else {
      assert a + b == b;
    }
  }

  /**
   * The flag is global: a filter whose value the dictionary drops (a later
   * filter names the same field) still switches exact matching off.
   */
  lemma OverriddenFilterStillDecidesMode(field: string, v1: string, v2: string)
    ensures var fs := [Filter(field, v1, Some(false)), DefaultFilter(field, v2)];
      && FieldValueMap(fs) == map[field := v2]
      && !AllExact(fs)
  {
    var fs := [Filter(field, v1, Some(false)), DefaultFilter(field, v2)];
    assert fs[..1] == [fs[0]];
  }
}
