/** The extraction in `buscar_email`: the contact e-mail values found in the
    reply to the `findRecords` query. */
module Contacts {
  import opened Basics
  import opened Json
  import opened Transport

  /** The field id the extraction looks for. */
  const ContactField: string := "email_do_contato"

  /** The elements a Python `for` loop visits when its body subscripts each
      element with a string key; `None` when the loop raises. A list visits
      its items; an empty dict or string visits nothing; the elements of a
      non-empty dict or string are strings, whose subscripting with a string
      raises; any other value is not iterable. */
  function Members(j: Json): (r: Option<seq<Json>>)
    ensures j.JArr? ==> r == Some(j.items)
  {
    match j
    case JArr(xs) => Some(xs)
    case JObj(m) => if m == map[] then Some([]) else None
    case JStr(s) => if s == "" then Some([]) else None
    case _ => None
  }

  /** Both parts, joined, when neither raised. */
  function Both(a: Option<seq<Json>>, b: Option<seq<Json>>): Option<seq<Json>>
  {
    if a.Some? && b.Some? then Some(a.value + b.value) else None
  }

  /** What one field contributes: its `value` when `field["field"]["id"]` is
      the contact field, nothing otherwise; `None` when a subscript raises. */
  function FieldValue(field: Json): Option<seq<Json>>
  {
    var f :- Index(field, "field");
    var id :- Index(f, "id");
    if id == JStr(ContactField) then
      var v :- Index(field, "value");
      Some([v])
    else Some([])
  }

  /** The inner loop, `for field in fields if ...`. */
  function FieldValues(fields: seq<Json>): Option<seq<Json>>
  {
    if fields == [] then Some([])
    else Both(FieldValue(fields[0]), FieldValues(fields[1..]))
  }

  /** What one edge contributes: the matching values of `edge["node"]`'s fields. */
  function EdgeValue(edge: Json): Option<seq<Json>>
  {
    var node :- Index(edge, "node");
    var fields :- Get(node, "fields", JArr([]));
    var fs :- Members(fields);
    FieldValues(fs)
  }

  /** The outer loop, `for edge in edges`. */
  function EdgeValues(edges: seq<Json>): Option<seq<Json>>
  {
    if edges == [] then Some([])
    else Both(EdgeValue(edges[0]), EdgeValues(edges[1..]))
  }

  /** The comprehension over `data.get("data", {}).get("findRecords", {}).get("edges", [])`. */
  function DocumentValues(doc: Json): Option<seq<Json>>
  {
    var data :- Get(doc, "data", JObj(map[]));
    var records :- Get(data, "findRecords", JObj(map[]));
    var edges :- Get(records, "edges", JArr([]));
    var es :- Members(edges);
    EdgeValues(es)
  }

  /** `buscar_email` once the query has been answered: the contact values,
      or `[]` when there is no response, the body does not decode, or the
      comprehension raises. */
  function ContactEmails(response: Option<Response>): (r: seq<Json>)
    ensures response.None? ==> r == []
    ensures response.Some? && response.value.body.Unparsable? ==> r == []
  {
    match response
    case None => []
    case Some(resp) =>
      match resp.body
      case Unparsable(_) => []
      case Parsed(doc) =>
        match DocumentValues(doc)
        case None => []
        case Some(vs) => vs
  }

  // ---------------------------------------------------------------------
  // Lemmas
  // ---------------------------------------------------------------------

  lemma BothUnit(a: Option<seq<Json>>)
    ensures Both(Some([]), a) == a && Both(a, Some([])) == a
  {
    if a.Some? {
      assert [] + a.value == a.value && a.value + [] == a.value;
    }
  }

  /** More fields contribute after the earlier ones: field order is kept. */
  lemma {:induction false} FieldValuesAppend(a: seq<Json>, b: seq<Json>)
    ensures FieldValues(a + b) == Both(FieldValues(a), FieldValues(b))
  {
    if a == [] {
      assert a + b == b;
      BothUnit(FieldValues(b));
    } else {
      assert (a + b)[1..] == a[1..] + b;
      FieldValuesAppend(a[1..], b);
      var x, y, z := FieldValue(a[0]), FieldValues(a[1..]), FieldValues(b);
      if x.Some? && y.Some? && z.Some? {
        assert x.value + (y.value + z.value) == (x.value + y.value) + z.value;
      }
    }
  }

  /** More edges contribute after the earlier ones: edge order is kept. */
  lemma {:induction false} EdgeValuesAppend(a: seq<Json>, b: seq<Json>)
    ensures EdgeValues(a + b) == Both(EdgeValues(a), EdgeValues(b))
  {
    if a == [] {
      assert a + b == b;
      BothUnit(EdgeValues(b));
    } else {
      assert (a + b)[1..] == a[1..] + b;
      EdgeValuesAppend(a[1..], b);
      var x, y, z := EdgeValue(a[0]), EdgeValues(a[1..]), EdgeValues(b);
      if x.Some? && y.Some? && z.Some? {
        assert x.value + (y.value + z.value) == (x.value + y.value) + z.value;
      }
    }
  }

  /** A single field: its value exactly when its id is the contact field. */
  lemma OneField(field: Json)
    ensures FieldValues([field]) == FieldValue(field)
    ensures FieldValue(field).Some? <==>
      && field.JObj? && "field" in field.members
      && field.members["field"].JObj? && "id" in field.members["field"].members
      && (field.members["field"].members["id"] == JStr(ContactField) ==> "value" in field.members)
    ensures FieldValue(field).Some? ==>
      FieldValue(field).value ==
        if field.members["field"].members["id"] == JStr(ContactField) then [field.members["value"]] else []
  {
    assert FieldValues([field]) == Both(FieldValue(field), FieldValues([]));
    BothUnit(FieldValue(field));
  }

  /** One malformed field makes the whole extraction give nothing. */
  lemma {:induction false} RaisingFieldSpoilsAll(fields: seq<Json>, i: nat)
    requires i < |fields| && FieldValue(fields[i]).None?
    ensures FieldValues(fields) == None
  {
    if i > 0 {
      RaisingFieldSpoilsAll(fields[1..], i - 1);
    }
  }

  /** One malformed edge makes the whole extraction give nothing. */
  lemma {:induction false} RaisingEdgeSpoilsAll(edges: seq<Json>, i: nat)
    requires i < |edges| && EdgeValue(edges[i]).None?
    ensures EdgeValues(edges) == None
  {
    if i > 0 {
      RaisingEdgeSpoilsAll(edges[1..], i - 1);
    }
  }

  /** A reply without `data`, or whose `data` has no `findRecords`, or whose
      `findRecords` has no `edges`, gives no contacts. */
  lemma MissingKeysGiveNothing(doc: Json, status: int)
    requires doc.JObj?
    requires || "data" !in doc.members
             || (doc.members["data"].JObj? && "findRecords" !in doc.members["data"].members)
             || (doc.members["data"].JObj? && doc.members["data"].members["findRecords"].JObj?
                 && "edges" !in doc.members["data"].members["findRecords"].members)
    ensures ContactEmails(Some(Response(status, Parsed(doc)))) == []
  {
  }

  /** A decoded reply's contacts are the values its edges give, or nothing,
      whatever other members (`errors`, `extensions`, ...) stand beside
      `data`, `findRecords` and `edges`. */
  lemma ContactsOfDocument(doc: Json, status: int, edges: seq<Json>)
    requires doc.JObj? && "data" in doc.members
    requires var data := doc.members["data"];
      data.JObj? && "findRecords" in data.members
      && var records := data.members["findRecords"];
         records.JObj? && "edges" in records.members && records.members["edges"] == JArr(edges)
    ensures EdgeValues(edges).Some? ==> ContactEmails(Some(Response(status, Parsed(doc)))) == EdgeValues(edges).value
    ensures EdgeValues(edges).None? ==> ContactEmails(Some(Response(status, Parsed(doc)))) == []
  {
  }

  /** The worked case: one record with a name field and one contact field. */
  lemma OneRecord(name: Json, email: Json)
    ensures var fields := [
        JObj(map["field" := JObj(map["id" := JStr("nome_da_empresa")]), "value" := name]),
        JObj(map["field" := JObj(map["id" := JStr(ContactField)]), "value" := email])];
      EdgeValues([JObj(map["node" := JObj(map["fields" := JArr(fields)])])]) == Some([email])
  {
    var f0 := JObj(map["field" := JObj(map["id" := JStr("nome_da_empresa")]), "value" := name]);
    var f1 := JObj(map["field" := JObj(map["id" := JStr(ContactField)]), "value" := email]);
    assert "nome_da_empresa" != ContactField;
    assert FieldValue(f0) == Some([]);
    assert FieldValue(f1) == Some([email]);
    OneField(f1);
    FieldValuesAppend([f0], [f1]);
    OneField(f0);
    assert [f0] + [f1] == [f0, f1];
    assert FieldValues([f0, f1]) == Some([] + [email]);
    assert [] + [email] == [email];
    var edge := JObj(map["node" := JObj(map["fields" := JArr([f0, f1])])]);
    assert EdgeValue(edge) == Some([email]);
    assert EdgeValues([edge]) == Both(EdgeValue(edge), EdgeValues([]));
    BothUnit(EdgeValue(edge));
  }
}
