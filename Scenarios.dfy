/**
 * A one-record example dataset,
 * `{"Organization Name": "acme house", "Categories": "Housing Support",
 * "Types of Assistance": "Rent, Utilities"}`, browsed under "Housing".
 */
module Scenarios {
  import opened Wrappers
  import opened Seqs
  import opened Strings
  import opened Records
  import opened TitleCase
  import opened Filtering
  import opened AssistanceTypes
  import opened Rendering

  predicate IsAcmeHouse(org: Record)
  {
    org == map[NameField := "acme house", CategoriesField := "Housing Support", TypesField := "Rent, Utilities"]
  }

  /** "Housing Support" contains "Housing", ignoring case. */
  lemma AcmeIsHousing(org: Record)
    requires IsAcmeHouse(org)
    ensures CategoryMatches(org, "Housing")
  {
    var c := Lower(Get(org, CategoriesField));
    var h := Lower("Housing");
    assert h == "housing";
    assert c[..7] == "housing";
    assert StartsWith(c, h);
  }

  /** "Rent, Utilities" splits at its one comma. */
  lemma AcmePieces(field: string, a: string, b: string)
    requires field == "Rent, Utilities" && a == "Rent" && b == " Utilities"
    ensures Split(field, ',') == [a, b]
  {
    assert field == a + [','] + b;
    SplitAfterPiece(a, b, ',');
    SplitWithoutSeparator(b, ',');
  }

  /** Trimming removes the space after the comma and leaves the first piece alone. */
  lemma AcmeTrimmedPieces(a: string, b: string, u: string)
    requires a == "Rent" && b == " Utilities" && u == "Utilities"
    ensures Trim(a) == a && Trim(b) == u
  {
    TrimStops(a);
    TrimStartSkips(b);
    assert b[1..] == u;
    TrimStops(u);
  }

  /** The example record offers "Rent" and "Utilities". */
  lemma AcmeRecordTypes(org: Record)
    requires IsAcmeHouse(org)
    ensures RecordTypes(org) == {"Rent", "Utilities"}
  {
    var a, b, u := "Rent", " Utilities", "Utilities";
    var field := Get(org, TypesField);
    AcmePieces(field, a, b);
    AcmeTrimmedPieces(a, b, u);
    PieceTypesPair(a, b);
  }

  /** Under "Housing" the example offers "Rent" and "Utilities". */
  lemma AcmeTypeSet(data: seq<Record>)
    requires |data| == 1 && IsAcmeHouse(data[0])
    ensures TypeSet(data, "Housing") == {"Rent", "Utilities"}
  {
    AcmeIsHousing(data[0]);
    AcmeRecordTypes(data[0]);
    assert data[..0] == [];
  }

  /** The only checkbox list for those types is "Rent" then "Utilities". */
  lemma AcmeAvailableTypes(data: seq<Record>, expected: seq<string>)
    requires |data| == 1 && IsAcmeHouse(data[0])
    requires expected == ["Rent", "Utilities"]
    ensures forall types :: StrictlySorted(types) && Elems(types) == TypeSet(data, "Housing") ==> types == expected
  {
    AcmeTypeSet(data);
    assert LessEq(expected[0], expected[1]);
    assert Elems(expected) == {"Rent", "Utilities"};
    forall types | StrictlySorted(types) && Elems(types) == TypeSet(data, "Housing") ensures types == expected {
      StrictlySortedUnique(types, expected);
    }
  }

  /** With no type checked, the one record is shown, headed "Acme House". */
  lemma AcmeShownWithoutTypes(data: seq<Record>, encode: string -> string)
    requires |data| == 1 && IsAcmeHouse(data[0])
    ensures ShowResults(data, Some("Housing"), {}, encode)
         == Display(true, Organizations([RenderOrganization(data[0], encode)]))
    ensures RenderOrganization(data[0], encode).heading == "Acme House"
  {
    var org := data[0];
    AcmeIsHousing(org);
    assert Keep(org, "Housing", {});
    assert Filter(data, "Housing", {}) == data by {
      assert data[1..] == [];
    }
    assert RenderAll(data, encode) == [RenderOrganization(org, encode)];
    TitleCaseExample(Get(org, NameField));
  }

  /** Of the record's three fields only `Types of Assistance` is in the rendered list, so its block has that one line. */
  lemma AcmeLines(org: Record, encode: string -> string)
    requires IsAcmeHouse(org)
    ensures HasLineFor(FieldLines(org, FieldsToRender, encode), TypesField)
    ensures forall f :: HasLineFor(FieldLines(org, FieldsToRender, encode), f) ==> f == TypesField
  {
    assert FieldsToRender[1] == TypesField;
    assert !AllWhitespace(org[TypesField]) by {
      assert !IsWhitespace(org[TypesField][0]);
    }
    FieldLinesMembership(org, FieldsToRender, encode, TypesField);
    NotRendered(NameField);
    NotRendered(CategoriesField);
    forall f | HasLineFor(FieldLines(org, FieldsToRender, encode), f) ensures f == TypesField {
      FieldLinesMembership(org, FieldsToRender, encode, f);
    }
  }

  /** No record of the example offers "Food", so checking it leaves only the message. */
  lemma AcmeFoodNotFound(data: seq<Record>, encode: string -> string)
    requires |data| == 1 && IsAcmeHouse(data[0])
    ensures ShowResults(data, Some("Housing"), {"Food"}, encode) == Display(true, Message(NoResultsMessage))
  {
    var org := data[0];
    var field := Lower(Get(org, TypesField));
    assert forall i :: 0 <= i < |field| ==> field[i] != 'f';
    assert Lower("Food")[0] == 'f';
    IncludesNeedsFirstChar(field, Lower("Food"));
    assert !Keep(org, "Housing", {"Food"});
    assert Filter(data, "Housing", {"Food"}) == [] by {
      assert data[1..] == [];
    }
  }

  /** A non-blank Website is one line whose link targets the value verbatim in a new context; a blank one gives no line. */
  lemma WebsiteLine(org: Record, encode: string -> string)
    ensures var lines := FieldLines(org, FieldsToRender, encode);
      && (HasLineFor(lines, "Website") <==> "Website" in org && !AllWhitespace(org["Website"]))
      && forall k :: 0 <= k < |lines| && lines[k].field == "Website" ==>
           lines[k].content == Link(org["Website"], org["Website"], true)
  {
    assert FieldsToRender[2] == "Website";
    FieldLinesMembership(org, FieldsToRender, encode, "Website");
    var lines := FieldLines(org, FieldsToRender, encode);
    forall k | 0 <= k < |lines| && lines[k].field == "Website"
      ensures lines[k].content == Link(org["Website"], org["Website"], true)
    {
      FieldLineContents(org, FieldsToRender, encode, k);
    }
  }

  /** Checking "Rent" keeps the record: its types field contains "rent". */
  lemma AcmeShownAsRent(data: seq<Record>, encode: string -> string)
    requires |data| == 1 && IsAcmeHouse(data[0])
    ensures ShowResults(data, Some("Housing"), {"Rent"}, encode)
         == Display(true, Organizations([RenderOrganization(data[0], encode)]))
    ensures RenderOrganization(data[0], encode).heading == "Acme House"
  {
    var org := data[0];
    AcmeIsHousing(org);
    var field := Lower(Get(org, TypesField));
    assert field[..4] == "rent" == Lower("Rent");
    assert StartsWith(field, Lower("Rent"));
    assert TypeMatches(org, "Rent");
    assert Keep(org, "Housing", {"Rent"});
    assert Filter(data, "Housing", {"Rent"}) == data by {
      assert data[1..] == [];
    }
    assert RenderAll(data, encode) == [RenderOrganization(org, encode)];
    TitleCaseExample(Get(org, NameField));
  }
}

/** The example as a session of page events on the directory's state. */
module Walkthrough {
  import opened Wrappers
  import opened Records
  import opened Rendering
  import opened App
  import opened Scenarios

  /**
   * The walk through the page: load the example, click "Housing", check
   * "Rent" (the record is shown), then click "Housing" again (the types are
   * unchecked and the results hidden).
   */
  method AcmeSession(data: seq<Record>, encode: string -> string) returns (offered: seq<string>, shown: Display, after: Display)
    requires |data| == 1 && IsAcmeHouse(data[0])
    ensures offered == ["Rent", "Utilities"]
    ensures shown.visible && shown.view.Organizations? && |shown.view.blocks| == 1
    ensures shown.view.blocks[0].heading == "Acme House"
    ensures after == Display(false, Cleared)
  {
    var d := new Directory(encode);
    d.Load(data);
    d.SelectCategory("Housing");
    assert d.allData == data && d.selectedCategory == Some("Housing") && d.selectedTypes == {};
    AcmeAvailableTypes(data, ["Rent", "Utilities"]);
    offered := d.typeOptions;
    assert offered[0] == "Rent";
    d.ToggleType("Rent", true);
    assert d.allData == data && d.selectedCategory == Some("Housing") && d.selectedTypes == {"Rent"};
    shown := Display(d.resultsVisible, d.results);
    AcmeShownAsRent(data, encode);
    assert shown == Display(true, Organizations([RenderOrganization(data[0], encode)]));
    d.SelectCategory("Housing");
    after := Display(d.resultsVisible, d.results);
  }
}
