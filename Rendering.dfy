/**
 * What the results panel shows, as a view model: for each kept record a
 * block with a title-cased heading and one line per non-blank field of a
 * fixed list, some of them rendered as links.
 */
module Rendering {
  import opened Wrappers
  import opened Seqs
  import opened Strings
  import opened Records
  import opened TitleCase
  import opened Filtering

  /** The fields a block shows, in the order it shows them: the service, the contact person, the practical details. */
  const FieldsToRender: seq<string> := ServiceFields + ContactFields + DetailFields

  const ServiceFields: seq<string> := ["Veteran Resources", "Types of Assistance", "Website", "Email", "Phone"]

  const ContactFields: seq<string> := ["Contact Name", "Contact Title", "Contact Email", "Contact Phone"]

  const DetailFields: seq<string> := [
    "Eligibility Requirements",
    "Application Process",
    "Documents Required",
    "Notes",
    "Distance from 34470 (mi)",
    "Address",
    "Operating Hours"
  ]

  /** The fields whose value is shown as a link. */
  const LinkFields: seq<string> := ["Website", "Email", "Phone", "Contact Email", "Contact Phone", "Address"]

  const MapsSearchPrefix := "https://www.google.com/maps/search/?api=1&query="

  /** Written between a field's name and its value: a space, an en dash, a space. */
  const TitleSeparator := " \U{2013} "

  const NoResultsMessage := "No organizations found."

  /** The value part of a line: plain text, or a link with its target and whether it opens a new browsing context. */
  datatype Content = Plain(text: string) | Link(text: string, href: string, newContext: bool)

  datatype FieldLine = FieldLine(field: string, title: string, content: Content)

  datatype OrgBlock = OrgBlock(heading: string, lines: seq<FieldLine>)

  /** The contents of the results list. */
  datatype ResultsView = Cleared | Message(text: string) | Organizations(blocks: seq<OrgBlock>)

  /** The results list together with whether its container is displayed. */
  datatype Display = Display(visible: bool, view: ResultsView)

  /** `content && content.trim() !== ''`: the field is present and not blank. */
  predicate HasContent(org: Record, field: string)
  {
    field in org && Trim(org[field]) != ""
  }

  /**
   * The value part of the line for `field`; `encode` stands for the host's
   * `encodeURIComponent`.
   */
  function RenderContent(field: string, value: string, encode: string -> string): (c: Content)
    ensures c.text == value
    ensures c.Link? <==> field in LinkFields
    ensures c.Link? ==> (c.newContext <==> field == "Website" || field == "Address")
    ensures field == "Website" ==> c.href == value
    ensures field == "Email" || field == "Contact Email" ==> c.href == "mailto:" + value
    ensures field == "Phone" || field == "Contact Phone" ==> c.href == "tel:" + value
    ensures field == "Address" ==> c.href == MapsSearchPrefix + encode(value)
  {
    if field == "Website" then Link(value, value, true)
    else if field == "Email" || field == "Contact Email" then Link(value, "mailto:" + value, false)
    else if field == "Phone" || field == "Contact Phone" then Link(value, "tel:" + value, false)
    else if field == "Address" then Link(value, MapsSearchPrefix + encode(value), true)
    else Plain(value)
  }

  /** The line for field `f`, if it has content: `"<field> – "` followed by its value. */
  function LineFor(org: Record, f: string, encode: string -> string): (r: seq<FieldLine>)
    ensures |r| <= 1
  {
    if HasContent(org, f) then [FieldLine(f, f + TitleSeparator, RenderContent(f, org[f], encode))] else []
  }

  /** The lines for the non-blank fields among `fields`, in the order of `fields`. */
  function FieldLines(org: Record, fields: seq<string>, encode: string -> string): seq<FieldLine>
    decreases |fields|
  {
    if fields == [] then [] else LineFor(org, fields[0], encode) + FieldLines(org, fields[1..], encode)
  }

  /** Some line of `lines` is for field `f`. */
  predicate HasLineFor(lines: seq<FieldLine>, f: string)
  {
    exists k :: 0 <= k < |lines| && lines[k].field == f
  }

  lemma HasLineForConcat(a: seq<FieldLine>, b: seq<FieldLine>, f: string)
    ensures HasLineFor(a + b, f) <==> HasLineFor(a, f) || HasLineFor(b, f)
  {
    if HasLineFor(a + b, f) {
      var k :| 0 <= k < |a + b| && (a + b)[k].field == f;
      if k >= |a| {
        assert b[k - |a|] == (a + b)[k];
      } else {
        assert a[k] == (a + b)[k];
      }
    }
    if HasLineFor(b, f) {
      var k :| 0 <= k < |b| && b[k].field == f;
      assert (a + b)[|a| + k] == b[k];
    }
    if HasLineFor(a, f) {
      var k :| 0 <= k < |a| && a[k].field == f;
      assert (a + b)[k] == a[k];
    }
  }

  /**
   * A line is written for a field exactly when the field is in the list and
   * its value is present and not all whitespace.
   */
  lemma {:induction false} FieldLinesMembership(org: Record, fields: seq<string>, encode: string -> string, f: string)
    ensures HasLineFor(FieldLines(org, fields, encode), f) <==> f in fields && f in org && !AllWhitespace(org[f])
    decreases |fields|
  {
    if f in org {
      TrimEmptyIff(org[f]);
    }
    if fields != [] {
      FieldLinesMembership(org, fields[1..], encode, f);
      var head := LineFor(org, fields[0], encode);
      HasLineForConcat(head, FieldLines(org, fields[1..], encode), f);
      assert HasLineFor(head, f) <==> f == fields[0] && HasContent(org, f) by {
        if HasLineFor(head, f) {
          var k :| 0 <= k < |head| && head[k].field == f;
        }
        if f == fields[0] && HasContent(org, f) {
          assert head[0].field == f;
        }
      }
      assert f in fields <==> f == fields[0] || f in fields[1..] by {
        assert fields == [fields[0]] + fields[1..];
      }
    }
  }

  /** What each line shows: the field's name followed by the separator, and the field's value as `RenderContent` presents it. */
  lemma {:induction false} FieldLineContents(org: Record, fields: seq<string>, encode: string -> string, k: nat)
    requires k < |FieldLines(org, fields, encode)|
    ensures var line := FieldLines(org, fields, encode)[k];
      && line.field in org && Trim(org[line.field]) != ""
      && line.title == line.field + TitleSeparator
      && line.content == RenderContent(line.field, org[line.field], encode)
      && line.content.text == org[line.field]
    decreases |fields|
  {
    var head := LineFor(org, fields[0], encode);
    var rest := FieldLines(org, fields[1..], encode);
    assert FieldLines(org, fields, encode) == head + rest;
    if k >= |head| {
      FieldLineContents(org, fields[1..], encode, k - |head|);
    }
  }

  function LineFields(lines: seq<FieldLine>): (r: seq<string>)
    ensures |r| == |lines|
  {
    seq(|lines|, k requires 0 <= k < |lines| => lines[k].field)
  }

  /** The lines follow the order of the field list: their fields form a subsequence of it. */
  lemma {:induction false} FieldLinesInOrder(org: Record, fields: seq<string>, encode: string -> string)
    returns (idx: seq<nat>)
    ensures Embeds(idx, LineFields(FieldLines(org, fields, encode)), fields)
    ensures IsSubsequence(LineFields(FieldLines(org, fields, encode)), fields)
    decreases |fields|
  {
    if fields == [] {
      idx := [];
    } else {
      var f := fields[0];
      var restLines := FieldLines(org, fields[1..], encode);
      var rest := FieldLinesInOrder(org, fields[1..], encode);
      var keep := HasContent(org, f);
      EmbedsCons(rest, LineFields(restLines), fields, keep);
      var lines := FieldLines(org, fields, encode);
      assert lines == LineFor(org, f, encode) + restLines;
      if keep {
        assert LineFields(lines) == [f] + LineFields(restLines);
        idx := [0] + Shift(rest);
      } else {
        assert LineFields(lines) == LineFields(restLines);
        idx := Shift(rest);
      }
    }
    assert Embeds(idx, LineFields(FieldLines(org, fields, encode)), fields);
  }

  /** The name, shown as the heading, and the categories are not among the fields rendered as lines. */
  lemma NotRendered(f: string)
    requires f == NameField || f == CategoriesField
    ensures f !in FieldsToRender
  {
  }

  /** The block for one organization: its name in title case, then its field lines. */
  function RenderOrganization(org: Record, encode: string -> string): OrgBlock
  {
    OrgBlock(ToTitleCase(Get(org, NameField)), FieldLines(org, FieldsToRender, encode))
  }

  /** One block per record, in the records' order. */
  function RenderAll(filtered: seq<Record>, encode: string -> string): (blocks: seq<OrgBlock>)
    ensures |blocks| == |filtered|
  {
    seq(|filtered|, i requires 0 <= i < |filtered| => RenderOrganization(filtered[i], encode))
  }

  /** The render loop over the kept records: append each record's block to the results list. */
  method RenderBlocks(filtered: seq<Record>, encode: string -> string) returns (blocks: seq<OrgBlock>)
    ensures |blocks| == |filtered|
    ensures forall i :: 0 <= i < |filtered| ==> blocks[i] == RenderOrganization(filtered[i], encode)
  {
    blocks := [];
    for i := 0 to |filtered|
      invariant |blocks| == i
      invariant forall k :: 0 <= k < i ==> blocks[k] == RenderOrganization(filtered[k], encode)
    {
      blocks := blocks + [RenderOrganization(filtered[i], encode)];
    }
  }

  /** `filterAndDisplayResults`: what the results container shows for a selection. */
  function ShowResults(data: seq<Record>, category: Option<string>, types: set<string>, encode: string -> string): Display
  {
    if category.None? || category.value == "" then Display(false, Cleared)
    else
      var filtered := Filter(data, category.value, types);
      if |filtered| == 0 then Display(true, Message(NoResultsMessage))
      else Display(true, Organizations(RenderAll(filtered, encode)))
  }

  /**
   * Without a category (absent or empty) the container is hidden and empty.
   * With one it is shown: the message alone when no record passes the filter,
   * otherwise one block per kept record, in dataset order, and a record of the
   * data has a block exactly when it passes the filter.
   */
  lemma ShowResultsSpec(data: seq<Record>, category: Option<string>, types: set<string>, encode: string -> string, org: Record)
    ensures var d := ShowResults(data, category, types, encode);
      && (d.visible <==> category.Some? && category.value != "")
      && (!d.visible ==> d.view == Cleared)
      && (d.visible ==>
            var filtered := Filter(data, category.value, types);
            && (d.view == Message(NoResultsMessage) <==> forall o :: o in data ==> !Keep(o, category.value, types))
            && (d.view.Organizations? ==> d.view.blocks == RenderAll(filtered, encode))
            && (org in data && Keep(org, category.value, types) <==>
                  d.view.Organizations? && exists i :: 0 <= i < |filtered| && filtered[i] == org))
  {
    if category.Some? && category.value != "" {
      var filtered := Filter(data, category.value, types);
      FilterMembership(data, category.value, types, org);
      forall o | o in data && Keep(o, category.value, types) ensures o in filtered {
        FilterMembership(data, category.value, types, o);
      }
      if filtered != [] {
        FilterMembership(data, category.value, types, filtered[0]);
      }
    }
  }
}
