/**
 * The assistance types offered as checkboxes for a category: the trimmed,
 * non-empty comma-separated pieces of the `Types of Assistance` field of
 * every record whose `Categories` contains the category, without repeats,
 * sorted.
 */
module AssistanceTypes {
  import opened Seqs
  import opened Strings
  import opened Records
  import opened Filtering

  /** The trimmed non-empty pieces among `pieces`. */
  function PieceTypes(pieces: seq<string>): set<string>
  {
    set p | p in pieces && Trim(p) != "" :: Trim(p)
  }

  /** The types one record offers: its `Types of Assistance` split on commas, trimmed, blanks dropped. */
  function RecordTypes(org: Record): set<string>
  {
    PieceTypes(Split(Get(org, TypesField), ','))
  }

  /**
   * The types offered by the records of `data` that match `category`, taken
   * record by record from the front (written from the last record back, as a
   * scan over a growing prefix sees it).
   */
  function TypeSet(data: seq<Record>, category: string): set<string>
    decreases |data|
  {
    if data == [] then {}
    else
      var last := data[|data| - 1];
      TypeSet(data[..|data| - 1], category) + (if CategoryMatches(last, category) then RecordTypes(last) else {})
  }

  /** A type is offered exactly when some record matching the category lists it. */
  lemma {:induction false} TypeSetMembership(data: seq<Record>, category: string, t: string)
    ensures t in TypeSet(data, category) <==>
      exists org :: org in data && CategoryMatches(org, category) && t in RecordTypes(org)
    decreases |data|
  {
    if data != [] {
      var init := data[..|data| - 1];
      var last := data[|data| - 1];
      TypeSetMembership(init, category, t);
      assert data == init + [last];
      assert forall org :: org in data <==> org in init || org == last;
    }
  }

  /**
   * Every offered type is non-empty and already trimmed, and is the trimmed
   * form of a comma-separated piece of the types field of a record that
   * matches the category.
   */
  lemma OfferedTypeIsTrimmedPiece(data: seq<Record>, category: string, t: string)
    requires t in TypeSet(data, category)
    ensures t != "" && Trim(t) == t
    ensures exists org, p ::
              && org in data && CategoryMatches(org, category)
              && p in Split(Get(org, TypesField), ',') && Trim(p) == t
  {
    TypeSetMembership(data, category, t);
    var org :| org in data && CategoryMatches(org, category) && t in RecordTypes(org);
    var p :| p in Split(Get(org, TypesField), ',') && Trim(p) != "" && Trim(p) == t;
    TrimIdempotent(p);
  }

  /** No comma survives into an offered type: each is a piece between two commas. */
  lemma OfferedTypeHasNoComma(data: seq<Record>, category: string, t: string)
    requires t in TypeSet(data, category)
    ensures ',' !in t
  {
    OfferedTypeIsTrimmedPiece(data, category, t);
    var org, p :| org in data && CategoryMatches(org, category)
      && p in Split(Get(org, TypesField), ',') && Trim(p) == t;
    SplitJoin(Get(org, TypesField), ',');
    TrimIsSlice(p);
  }

  /** Trimming returns a contiguous part of its input. */
  lemma TrimIsSlice(s: string)
    ensures forall c :: c in Trim(s) ==> c in s
  {
    TrimSpec(s);
    var i, j :| 0 <= i <= j <= |s| && Trim(s) == s[i..j];
    assert forall k :: 0 <= k < j - i ==> s[i..j][k] == s[i + k];
  }

  /** Two lists of types are the same exactly when both list the same types in ascending order without repeats. */
  lemma OfferedTypesDetermined(data: seq<Record>, category: string, a: seq<string>, b: seq<string>)
    requires StrictlySorted(a) && Elems(a) == TypeSet(data, category)
    requires StrictlySorted(b) && Elems(b) == TypeSet(data, category)
    ensures a == b
  {
    StrictlySortedUnique(a, b);
  }

  lemma PieceTypesSnoc(pieces: seq<string>, p: string)
    ensures PieceTypes(pieces + [p]) == PieceTypes(pieces) + (if Trim(p) != "" then {Trim(p)} else {})
  {
    forall x ensures x in PieceTypes(pieces + [p]) <==> x in PieceTypes(pieces) || (Trim(p) != "" && x == Trim(p)) {
      if x in PieceTypes(pieces + [p]) {
        var q :| q in pieces + [p] && Trim(q) != "" && Trim(q) == x;
        assert q in pieces || q == p;
      }
      if x in PieceTypes(pieces) {
        var q :| q in pieces && Trim(q) != "" && Trim(q) == x;
        assert q in pieces + [p];
      }
      if Trim(p) != "" && x == Trim(p) {
        assert p in pieces + [p];
      }
    }
  }

  /** The types two pieces contribute when neither is blank. */
  lemma PieceTypesPair(a: string, b: string)
    requires Trim(a) != "" && Trim(b) != ""
    ensures PieceTypes([a, b]) == {Trim(a), Trim(b)}
  {
    PieceTypesSnoc([], a);
    PieceTypesSnoc([a], b);
    assert [] + [a] == [a] && [a] + [b] == [a, b];
  }

  /** A record without a `Types of Assistance` field reads it as "", whose one piece is blank: it offers no type. */
  lemma MissingTypesOfferNothing(org: Record)
    ensures TypesField !in org ==> RecordTypes(org) == {}
  {
    if TypesField !in org {
      assert Split("", ',') == [""];
      assert Trim("") == "";
    }
  }

  /** One step of the scan: the types of a prefix one record longer. */
  lemma TypeSetStep(data: seq<Record>, category: string, i: nat)
    requires i < |data|
    ensures TypeSet(data[..i + 1], category)
      == TypeSet(data[..i], category) + (if CategoryMatches(data[i], category) then RecordTypes(data[i]) else {})
  {
    assert data[..i + 1][..i] == data[..i];
  }

  /**
   * One turn of the inner loop: adding the trimmed piece `j`, when it is not
   * blank and not yet there, keeps the list free of repeats and extends its
   * elements by that piece's type.
   */
  lemma AddPieceStep(found: seq<string>, pieces: seq<string>, j: nat, grown: seq<string>)
    requires j < |pieces|
    requires NoDuplicates(grown) && Elems(grown) == Elems(found) + PieceTypes(pieces[..j])
    ensures var t := Trim(pieces[j]);
      var next := if t != "" && t !in grown then grown + [t] else grown;
      NoDuplicates(next) && Elems(next) == Elems(found) + PieceTypes(pieces[..j + 1])
  {
    var t := Trim(pieces[j]);
    assert pieces[..j + 1] == pieces[..j] + [pieces[j]];
    PieceTypesSnoc(pieces[..j], pieces[j]);
    if t != "" && t !in grown {
      ElemsSnoc(grown, t);
      NoDuplicatesSnoc(grown, t);
    }
  }

  /** The inner loop over the comma pieces of one record: each trimmed, non-blank piece joins the set unless already there. */
  method AddPieces(found: seq<string>, pieces: seq<string>) returns (grown: seq<string>)
    requires NoDuplicates(found)
    ensures NoDuplicates(grown)
    ensures Elems(grown) == Elems(found) + PieceTypes(pieces)
  {
    grown := found;
    for j := 0 to |pieces|
      invariant NoDuplicates(grown)
      invariant Elems(grown) == Elems(found) + PieceTypes(pieces[..j])
    {
      AddPieceStep(found, pieces, j, grown);
      var t := Trim(pieces[j]);
      if t != "" && t !in grown {
        grown := grown + [t];
      }
    }
    assert pieces[..|pieces|] == pieces;
  }

  /**
   * `displayTypesOfAssistance` up to the checkboxes: collect the types into a
   * set (a duplicate-free list kept in insertion order, like a JavaScript
   * `Set`), then turn it into a sorted array.
   */
  method CollectTypes(data: seq<Record>, category: string) returns (types: seq<string>)
    ensures StrictlySorted(types)
    ensures Elems(types) == TypeSet(data, category)
  {
    var found: seq<string> := [];
    for i := 0 to |data|
      invariant NoDuplicates(found)
      invariant Elems(found) == TypeSet(data[..i], category)
    {
      TypeSetStep(data, category, i);
      var org := data[i];
      var categories := Get(org, CategoriesField);
      if Includes(Lower(categories), Lower(category)) {
        found := AddPieces(found, Split(Get(org, TypesField), ','));
      }
    }
    assert data[..|data|] == data;
    types := Sort(found);
    assert forall x :: x in types <==> x in multiset(types);
  }
}
