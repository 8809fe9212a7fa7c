/**
 * Which records the results list shows: the predicate given to
 * `allData.filter` and the filter itself.
 */
module Filtering {
  import opened Seqs
  import opened Strings
  import opened Records

  /** The record's `Categories` (missing reads as "") contains the category, ignoring case. */
  predicate CategoryMatches(org: Record, category: string)
  {
    Includes(Lower(Get(org, CategoriesField)), Lower(category))
  }

  /** The record's `Types of Assistance` (missing reads as "") contains `t`, ignoring case. */
  predicate TypeMatches(org: Record, t: string)
  {
    Includes(Lower(Get(org, TypesField)), Lower(t))
  }

  /** The filter predicate: the category matches, and either no type is selected or some selected type matches. */
  predicate Keep(org: Record, category: string, types: set<string>)
  {
    CategoryMatches(org, category) && (types == {} || exists t :: t in types && TypeMatches(org, t))
  }

  /** `data.filter(...)`: the records satisfying `Keep`, in their original order. */
  function Filter(data: seq<Record>, category: string, types: set<string>): seq<Record>
    decreases |data|
  {
    if data == [] then []
    else (if Keep(data[0], category, types) then [data[0]] else []) + Filter(data[1..], category, types)
  }

  /**
   * A missing field reads as the empty string: a record without `Categories`
   * matches only the empty category, and one without `Types of Assistance`
   * matches only the empty type.
   */
  lemma MissingFieldMatchesOnlyEmpty(org: Record, category: string, t: string)
    ensures CategoriesField !in org ==> (CategoryMatches(org, category) <==> category == "")
    ensures TypesField !in org ==> (TypeMatches(org, t) <==> t == "")
  {
    EmptyIncludesOnlyEmpty(Lower(category));
    EmptyIncludesOnlyEmpty(Lower(t));
  }

  /** A record is in the output exactly when it is in the data and both conditions of the filter hold. */
  lemma {:induction false} FilterMembership(data: seq<Record>, category: string, types: set<string>, org: Record)
    ensures org in Filter(data, category, types) <==>
      && org in data
      && CategoryMatches(org, category)
      && (types == {} || exists t :: t in types && TypeMatches(org, t))
    decreases |data|
  {
    if data != [] {
      FilterMembership(data[1..], category, types, org);
      assert data == [data[0]] + data[1..];
    }
  }

  /** Filtering a concatenation filters each part: the filter never reorders. */
  lemma {:induction false} FilterConcat(a: seq<Record>, b: seq<Record>, category: string, types: set<string>)
    ensures Filter(a + b, category, types) == Filter(a, category, types) + Filter(b, category, types)
    decreases |a|
  {
    if a == [] {
      assert a + b == b;
    } else {
      var head := if Keep(a[0], category, types) then [a[0]] else [];
      FilterConcat(a[1..], b, category, types);
      assert (a + b)[0] == a[0];
      assert (a + b)[1..] == a[1..] + b;
      assert Filter(a + b, category, types) == head + Filter(a[1..] + b, category, types);
      assert Filter(a, category, types) == head + Filter(a[1..], category, types);
    }
  }

  /** The output is a subsequence of the data: the kept records keep their relative order. */
  lemma {:induction false} FilterIsSubsequence(data: seq<Record>, category: string, types: set<string>)
    returns (idx: seq<nat>)
    ensures Embeds(idx, Filter(data, category, types), data)
    ensures IsSubsequence(Filter(data, category, types), data)
    decreases |data|
  {
    if data == [] {
      idx := [];
    } else {
      var tail := Filter(data[1..], category, types);
      var rest := FilterIsSubsequence(data[1..], category, types);
      var keep := Keep(data[0], category, types);
      EmbedsCons(rest, tail, data, keep);
      if keep {
        assert Filter(data, category, types) == [data[0]] + tail;
        idx := [0] + Shift(rest);
      } else {
        assert Filter(data, category, types) == tail;
        idx := Shift(rest);
      }
    }
    assert Embeds(idx, Filter(data, category, types), data);
  }

  lemma {:induction false} FilterLength(data: seq<Record>, category: string, types: set<string>)
    ensures |Filter(data, category, types)| <= |data|
    decreases |data|
  {
    if data != [] {
      FilterLength(data[1..], category, types);
    }
  }

  /** Filtering the output again with the same selection changes nothing. */
  lemma {:induction false} FilterIdempotent(data: seq<Record>, category: string, types: set<string>)
    ensures Filter(Filter(data, category, types), category, types) == Filter(data, category, types)
    decreases |data|
  {
    if data != [] {
      var head := if Keep(data[0], category, types) then [data[0]] else [];
      FilterIdempotent(data[1..], category, types);
      FilterConcat(head, Filter(data[1..], category, types), category, types);
      assert Filter(head, category, types) == head by {
        if head != [] {
          assert head[1..] == [];
        }
      }
    }
  }

  /**
   * Selecting more types never hides a record (the selected types are
   * alternatives), and every record shown under some selection is also shown
   * when no type is selected.
   */
  lemma FilterTypesMonotone(data: seq<Record>, category: string, types: set<string>, more: set<string>, org: Record)
    requires types <= more
    requires types != {} || more == {}
    ensures org in Filter(data, category, types) ==> org in Filter(data, category, more)
    ensures org in Filter(data, category, types) ==> org in Filter(data, category, {})
  {
    FilterMembership(data, category, types, org);
    FilterMembership(data, category, more, org);
    FilterMembership(data, category, {}, org);
  }

  /** The empty category is contained in every `Categories` field, so it matches every record. */
  lemma EmptyCategoryMatchesAll(org: Record)
    ensures CategoryMatches(org, "")
  {
    IncludesEmpty(Lower(Get(org, CategoriesField)));
  }

  // ---------------------------------------------------------------------------
  // The predicate as the source runs it
  // ---------------------------------------------------------------------------

  /** The `for (const t of selectedTypes)` loop: true as soon as one selected type occurs in `field`. */
  method AnyTypeIncluded(types: set<string>, field: string) returns (found: bool)
    ensures found <==> exists t :: t in types && Includes(Lower(field), Lower(t))
  {
    var remaining := types;
    while remaining != {}
      invariant remaining <= types
      invariant forall t :: t in types - remaining ==> !Includes(Lower(field), Lower(t))
      decreases |remaining|
    {
      var t :| t in remaining;
      if Includes(Lower(field), Lower(t)) {
        return true;
      }
      remaining := remaining - {t};
    }
    return false;
  }

  /** The arrow function given to `allData.filter`, with its early returns. */
  method KeepRecord(org: Record, category: string, types: set<string>) returns (keep: bool)
    ensures keep == Keep(org, category, types)
  {
    var categories := Get(org, CategoriesField);
    if !Includes(Lower(categories), Lower(category)) {
      return false;
    }
    if |types| == 0 {
      return true;
    }
    var typesOfAssistance := Get(org, TypesField);
    keep := AnyTypeIncluded(types, typesOfAssistance);
  }

  /** `allData.filter(predicate)`: one pass over the data, appending each kept record. */
  method FilterRecords(data: seq<Record>, category: string, types: set<string>) returns (filtered: seq<Record>)
    ensures filtered == Filter(data, category, types)
  {
    filtered := [];
    for i := 0 to |data|
      invariant filtered == Filter(data[..i], category, types)
    {
      var keep := KeepRecord(data[i], category, types);
      FilterConcat(data[..i], [data[i]], category, types);
      assert data[..i + 1] == data[..i] + [data[i]];
      if keep {
        filtered := filtered + [data[i]];
      }
    }
    assert data[..|data|] == data;
  }
}
