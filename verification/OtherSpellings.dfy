/** Client metadata that the strict check accepts and that does not decode as its exact names say. */
module OtherSpellings {
  import opened Options
  import opened StrictJson

  function Strings(texts: seq<string>): Json {
    JArray(seq(|texts|, i requires 0 <= i < |texts| => JString(texts[i])))
  }

  const GRANT_TYPES: seq<string> := ["authorization_code", "refresh_token"]

  /** Metadata for an update with two members that fold to `client_id`, the exact one first. */
  function TwoIds(exact: string, folded: string, uri: string): Document {
    Object([
      Member("redirect_uris", Strings([uri])),
      Member("token_endpoint_auth_method", JString("none")),
      Member("response_types", Strings(["code"])),
      Member("grant_types", Strings(GRANT_TYPES)),
      Member("client_id", JString(exact)),
      Member("Client_id", JString(folded))], false)
  }

  /** Metadata for an update whose exact `grant_types` is two nulls, stored over a list under another spelling. */
  function TwoLists(id: string, uri: string): Document {
    Object([
      Member("redirect_uris", Strings([uri])),
      Member("token_endpoint_auth_method", JString("none")),
      Member("response_types", Strings(["code"])),
      Member("client_id", JString(id)),
      Member("Grant_types", Strings(GRANT_TYPES)),
      Member("grant_types", JArray([JNull, JNull]))], false)
  }

  // ---- Names and fields ----------------------------------------------------------------------

  lemma FieldNames()
    ensures UPDATE_FIELDS ==
            ["client_id", "redirect_uris", "token_endpoint_auth_method", "grant_types", "response_types"]
    ensures SECURITY_FIELDS == ["redirect_uris", "token_endpoint_auth_method"]
    ensures |"client_id"| == 9 && |"redirect_uris"| == 13 && |"token_endpoint_auth_method"| == 26
    ensures |"grant_types"| == 11 && |"response_types"| == 14
  {}

  lemma OwnField(name: string)
    requires name in UPDATE_FIELDS
    ensures FieldFor(name, UPDATE_FIELDS) == Some(name)
  {}

  lemma NoCapitals()
    ensures "Client_id" !in UPDATE_FIELDS && "Grant_types" !in UPDATE_FIELDS
  {
    forall f | f in UPDATE_FIELDS ensures f != "Client_id" && f != "Grant_types" {
      assert f[0] != 'C' && f[0] != 'G';
    }
  }

  lemma FoldedId()
    ensures FieldFor("Client_id", UPDATE_FIELDS) == Some("client_id")
  {
    NoCapitals();
    assert EqualFold("Client_id", "client_id");
    assert UPDATE_FIELDS[0] == "client_id";
  }

  lemma FoldedTypes()
    ensures FieldFor("Grant_types", UPDATE_FIELDS) == Some("grant_types")
  {
    hide UPDATE_FIELDS;
    FieldNames();
    NoCapitals();
    var fields := UPDATE_FIELDS;
    assert EqualFold("Grant_types", fields[3]);
    assert |fields[0]| != 11 && |fields[1]| != 11 && |fields[2]| != 11;
    assert fields[1..][0] == fields[1] && fields[1..][1..][0] == fields[2] && fields[1..][1..][1..][0] == fields[3];
    assert FirstFold("Grant_types", fields[1..][1..][1..]) == Some(fields[3]);
    assert FirstFold("Grant_types", fields[1..][1..]) == Some(fields[3]);
    assert FirstFold("Grant_types", fields[1..]) == Some(fields[3]);
  }

  lemma UpdateZeroes()
    ensures UPDATE_ZERO.Keys
      == {"client_id", "redirect_uris", "token_endpoint_auth_method", "grant_types", "response_types"}
    ensures UPDATE_ZERO["client_id"] == Text("") && UPDATE_ZERO["token_endpoint_auth_method"] == Text("")
    ensures UPDATE_ZERO["redirect_uris"] == UPDATE_ZERO["grant_types"] == UPDATE_ZERO["response_types"] == Texts([], [])
  {
    FieldNames();
  }

  /** Names of different lengths, except the last two, which differ in their first letter. */
  lemma AcceptedByLengths(ms: seq<Member>)
    requires |ms| == 6 && ms[4].name != ms[5].name
    requires ms[0].name == "redirect_uris" && ms[1].name == "token_endpoint_auth_method" && |ms[2].name| == 14
    requires (|ms[3].name| == 11 && |ms[4].name| == |ms[5].name| == 9)
      || (|ms[3].name| == 9 && |ms[4].name| == |ms[5].name| == 11)
    ensures Accepted(Object(ms, false))
  {
    hide SECURITY_FIELDS;
    FieldNames();
    assert |ms[0].name| == 13 && |ms[1].name| == 26;
    forall f | f in SECURITY_FIELDS ensures Canonical(ms, f) {
      assert f == ms[0].name || f == ms[1].name;
    }
  }

  // ---- What decides a field --------------------------------------------------------------------

  predicate Decodes(doc: Document) {
    StrictDecode(doc, UPDATE_FIELDS, UPDATE_ZERO).Some?
  }

  function Decoded(doc: Document): Struct
    requires Decodes(doc)
  {
    StrictDecode(doc, UPDATE_FIELDS, UPDATE_ZERO).value
  }

  /** Member `k` is the last one bound to the field. */
  predicate Decides(ms: seq<Member>, field: string, k: nat) {
    && k < |ms| && BoundTo(ms[k], UPDATE_FIELDS, field)
    && forall l :: k < l < |ms| ==> !BoundTo(ms[l], UPDATE_FIELDS, field)
  }

  lemma TextDecided(doc: Document, field: string, k: nat)
    requires Decodes(doc) && Decides(doc.members, field, k) && doc.members[k].value.JString?
    requires field in UPDATE_ZERO && UPDATE_ZERO[field].Text?
    ensures TextOf(Decoded(doc), field) == doc.members[k].value.text
  {
    hide BoundTo, UPDATE_FIELDS, UPDATE_ZERO;
    WinnerIsLastBound(UPDATE_ZERO[field], doc.members, UPDATE_FIELDS, field, k);
    TextIsLastBound(UPDATE_ZERO, doc.members, UPDATE_FIELDS, field);
  }

  lemma {:induction false} HeldUpTo(ms: seq<Member>, field: string, k: nat, i: nat)
    requires Decides(ms, field, k)
    ensures Held(Texts([], []), ms, UPDATE_FIELDS, field, i)
      == Held(Texts([], []), ms[..k + 1], UPDATE_FIELDS, field, i)
    decreases |ms|
  {
    hide BoundTo, UPDATE_FIELDS;
    if k + 1 == |ms| {
      assert ms[..k + 1] == ms;
    } else {
      var init := ms[..|ms| - 1];
      HeldUpTo(init, field, k, i);
      assert init[..k + 1] == ms[..k + 1];
    }
  }

  /** The field shows the list of the member that decides it, and where that list has a null, what was there before. */
  lemma ListDecided(doc: Document, field: string, k: nat)
    requires Decodes(doc) && Decides(doc.members, field, k)
    requires doc.members[k].value.JArray? && doc.members[k].value.items != []
    requires field in UPDATE_ZERO && UPDATE_ZERO[field] == Texts([], [])
    ensures var items, r := doc.members[k].value.items, TextsOf(Decoded(doc), field);
            |r| == |items| && forall i :: 0 <= i < |items| ==>
              r[i] == if items[i].JString? then items[i].text
                      else Held(Texts([], []), doc.members[..k], UPDATE_FIELDS, field, i)
  {
    hide BoundTo, UPDATE_FIELDS, UPDATE_ZERO;
    var ms, slot := doc.members, Texts([], []);
    WinnerIsLastBound(slot, ms, UPDATE_FIELDS, field, k);
    ListItems(UPDATE_ZERO, ms, UPDATE_FIELDS, field);
    forall i: nat | i < |ms[k].value.items|
      ensures Held(slot, ms, UPDATE_FIELDS, field, i) ==
              if Writes(ms[k].value, i) then ms[k].value.items[i].text
              else Held(slot, ms[..k], UPDATE_FIELDS, field, i)
    {
      HeldUpTo(ms, field, k, i);
      assert ms[..k + 1][..k] == ms[..k];
    }
  }

  lemma StringsDecided(doc: Document, field: string, k: nat, texts: seq<string>)
    requires Decodes(doc) && Decides(doc.members, field, k) && texts != []
    requires doc.members[k].value == Strings(texts)
    requires field in UPDATE_ZERO && UPDATE_ZERO[field] == Texts([], [])
    ensures TextsOf(Decoded(doc), field) == texts
  {
    hide Held, BoundTo, UPDATE_FIELDS, UPDATE_ZERO, Decides, Decodes, Decoded;
    assert |Strings(texts).items| == |texts|;
    ListDecided(doc, field, k);
  }

  // ---- The two documents -------------------------------------------------------------------------

  predicate BoundInOrder(ms: seq<Member>, names: seq<string>) {
    |ms| == |names| && forall i :: 0 <= i < |ms| ==> FieldFor(ms[i].name, UPDATE_FIELDS) == Some(names[i])
  }

  lemma TwoIdsNames(exact: string, folded: string, uri: string)
    ensures BoundInOrder(TwoIds(exact, folded, uri).members,
                  ["redirect_uris", "token_endpoint_auth_method", "response_types", "grant_types", "client_id",
                    "client_id"])
    ensures Accepted(TwoIds(exact, folded, uri))
  {
    hide FieldFor, UPDATE_FIELDS;
    FieldNames();
    FoldedId();
    OwnField("redirect_uris");
    OwnField("token_endpoint_auth_method");
    OwnField("response_types");
    OwnField("grant_types");
    OwnField("client_id");
    var ms := TwoIds(exact, folded, uri).members;
    assert ms[4].name[0] == 'c' && ms[5].name[0] == 'C';
    AcceptedByLengths(ms);
  }

  lemma TwoListsNames(id: string, uri: string)
    ensures BoundInOrder(TwoLists(id, uri).members,
                  ["redirect_uris", "token_endpoint_auth_method", "response_types", "client_id", "grant_types",
                    "grant_types"])
    ensures Accepted(TwoLists(id, uri))
  {
    hide FieldFor, UPDATE_FIELDS;
    FieldNames();
    FoldedTypes();
    OwnField("redirect_uris");
    OwnField("token_endpoint_auth_method");
    OwnField("response_types");
    OwnField("grant_types");
    OwnField("client_id");
    var ms := TwoLists(id, uri).members;
    assert ms[4].name[0] == 'G' && ms[5].name[0] == 'g';
    AcceptedByLengths(ms);
  }

  /** A text for a text field, a list of texts for a list field. */
  lemma FittingMembersDecode(doc: Document, names: seq<string>)
    requires Accepted(doc) && BoundInOrder(doc.members, names)
    requires forall i :: 0 <= i < |names| ==> names[i] in UPDATE_ZERO
    requires forall i :: 0 <= i < |names| ==>
               var v := doc.members[i].value;
               if UPDATE_ZERO[names[i]].Text? then v.JString? else v.JArray? && AllTexts(v.items)
    ensures Decodes(doc)
  {
    hide FieldFor, UPDATE_FIELDS, UPDATE_ZERO, DistinctNames, Canonical;
    FillSucceeds(UPDATE_ZERO, doc.members, UPDATE_FIELDS);
  }

  lemma DecidesByNames(ms: seq<Member>, names: seq<string>, k: nat)
    requires BoundInOrder(ms, names) && k < |names| && forall l :: k < l < |names| ==> names[l] != names[k]
    ensures Decides(ms, names[k], k)
  {
    hide FieldFor, UPDATE_FIELDS;
  }

  /** What the first document decodes to: the differently spelled member decides the id. */
  lemma TwoIdsDecode(exact: string, folded: string, uri: string)
    ensures var doc := TwoIds(exact, folded, uri);
            && ExactLookup(doc.members, "client_id") == Some(JString(exact))
            && Decodes(doc) && TextOf(Decoded(doc), "client_id") == folded
            && TextsOf(Decoded(doc), "redirect_uris") == [uri]
            && TextOf(Decoded(doc), "token_endpoint_auth_method") == "none"
            && TextsOf(Decoded(doc), "grant_types") == GRANT_TYPES
            && TextsOf(Decoded(doc), "response_types") == ["code"]
  {
    hide FieldFor, UPDATE_FIELDS, UPDATE_ZERO, Accepted, StrictJson.StrictDecode, Decides, TextOf, TextsOf, Decoded,
      Decodes;
    var doc := TwoIds(exact, folded, uri);
    var ms := doc.members;
    var names := ["redirect_uris", "token_endpoint_auth_method", "response_types", "grant_types", "client_id",
      "client_id"];
    FieldNames();
    UpdateZeroes();
    TwoIdsNames(exact, folded, uri);
    FittingMembersDecode(doc, names);
    AcceptedIsDistinct(doc);
    ExactIsUnique(ms, "client_id", 4);
    DecidesByNames(ms, names, 0);
    DecidesByNames(ms, names, 1);
    DecidesByNames(ms, names, 2);
    DecidesByNames(ms, names, 3);
    DecidesByNames(ms, names, 5);
    StringsDecided(doc, "redirect_uris", 0, [uri]);
    TextDecided(doc, "token_endpoint_auth_method", 1);
    StringsDecided(doc, "response_types", 2, ["code"]);
    StringsDecided(doc, "grant_types", 3, GRANT_TYPES);
    TextDecided(doc, "client_id", 5);
  }

  lemma AcceptedIsDistinct(doc: Document)
    requires Accepted(doc)
    ensures DistinctNames(doc.members)
  {}

  /** What the second document decodes to: the nulls leave the list under the other spelling in place. */
  lemma TwoListsDecode(id: string, uri: string)
    ensures var doc := TwoLists(id, uri);
            && ExactLookup(doc.members, "grant_types") == Some(JArray([JNull, JNull]))
            && Decodes(doc) && TextOf(Decoded(doc), "client_id") == id
            && TextsOf(Decoded(doc), "redirect_uris") == [uri]
            && TextOf(Decoded(doc), "token_endpoint_auth_method") == "none"
            && TextsOf(Decoded(doc), "grant_types") == GRANT_TYPES
            && TextsOf(Decoded(doc), "response_types") == ["code"]
  {
    hide FieldFor, UPDATE_FIELDS, UPDATE_ZERO, Accepted, StrictJson.StrictDecode, Decides, TextOf, TextsOf, Decoded,
      Decodes;
    var doc := TwoLists(id, uri);
    var ms := doc.members;
    var names := ["redirect_uris", "token_endpoint_auth_method", "response_types", "client_id", "grant_types",
      "grant_types"];
    FieldNames();
    UpdateZeroes();
    TwoListsNames(id, uri);
    FittingMembersDecode(doc, names);
    AcceptedIsDistinct(doc);
    ExactIsUnique(ms, "grant_types", 5);
    DecidesByNames(ms, names, 0);
    DecidesByNames(ms, names, 1);
    DecidesByNames(ms, names, 2);
    DecidesByNames(ms, names, 3);
    DecidesByNames(ms, names, 5);
    StringsDecided(doc, "redirect_uris", 0, [uri]);
    TextDecided(doc, "token_endpoint_auth_method", 1);
    StringsDecided(doc, "response_types", 2, ["code"]);
    TextDecided(doc, "client_id", 3);
    ListDecided(doc, "grant_types", 5);
    EarlierTypesHeld(ms);
  }

  lemma EarlierTypesHeld(ms: seq<Member>)
    requires |ms| == 6 && BoundTo(ms[4], UPDATE_FIELDS, "grant_types") && ms[4].value == Strings(GRANT_TYPES)
    ensures forall i: nat :: i < 2 ==> Held(Texts([], []), ms[..5], UPDATE_FIELDS, "grant_types", i) == GRANT_TYPES[i]
  {
    hide BoundTo, UPDATE_FIELDS;
    assert ms[..5][4] == ms[4];
  }
}
