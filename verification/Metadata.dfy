/** What client metadata has to say, read off the members of the document. */
module Metadata {
  import opened Options
  import opened StrictJson
  import opened OtherSpellings

  /** The list of strings that a value is; an absent one and a null are the empty list. */
  function ListOf(v: Option<Json>): Option<seq<string>> {
    if v.None? || v.value.JNull? then Some([])
    else if v.value.JArray? && AllTexts(v.value.items) then Some(Overwritten([], v.value.items))
    else None
  }

  function TextIn(v: Option<Json>): Option<string> {
    if v.None? || v.value.JNull? then Some("")
    else if v.value.JString? then Some(v.value.text)
    else None
  }

  /** Without a list in memory, items are their texts and nulls are empty. */
  lemma ItemsAlone(items: seq<Json>)
    requires AllTexts(items)
    ensures var r := ListOf(Some(JArray(items)));
            r.Some? && |r.value| == |items|
            && forall i :: 0 <= i < |items| ==> r.value[i] == if items[i].JString? then items[i].text else ""
  {}

  lemma StoreAlone(v: Json)
    ensures Store(Texts([], []), v).Some? <==> ListOf(Some(v)).Some?
    ensures ListOf(Some(v)).Some? ==>
              Store(Texts([], []), v).value.Texts? && Store(Texts([], []), v).value.items == ListOf(Some(v)).value
    ensures Store(Text(""), v).Some? <==> TextIn(Some(v)).Some?
    ensures TextIn(Some(v)).Some? ==> Store(Text(""), v) == Some(Text(TextIn(Some(v)).value))
  {
    assert Overwritten([], []) == [];
    assert forall s: seq<string> :: [] + s == s;
  }

  /** The two security fields of a document, by their exact names. */
  function URIsIn(doc: Document): Option<seq<string>>
    requires doc.Object?
  {
    ListOf(ExactLookup(doc.members, "redirect_uris"))
  }

  function MethodIn(doc: Document): Option<string>
    requires doc.Object?
  {
    TextIn(ExactLookup(doc.members, "token_endpoint_auth_method"))
  }

  // ---- Registration -----------------------------------------------------------------------------

  lemma RegistrationConstants()
    ensures REGISTRATION_FIELDS == SECURITY_FIELDS == ["redirect_uris", "token_endpoint_auth_method"]
    ensures "redirect_uris" != "token_endpoint_auth_method"
    ensures REGISTRATION_ZERO.Keys == {"redirect_uris", "token_endpoint_auth_method"}
    ensures REGISTRATION_ZERO["redirect_uris"] == Texts([], [])
    ensures REGISTRATION_ZERO["token_endpoint_auth_method"] == Text("")
  {
    assert |"redirect_uris"| == 13 && |"token_endpoint_auth_method"| == 26;
  }

  /** In an accepted document a member bound to a security field is the one with its exact name. */
  lemma SecurityMember(doc: Document, fields: seq<string>, i: nat, field: string)
    requires Accepted(doc) && i < |doc.members| && field in SECURITY_FIELDS && BoundTo(doc.members[i], fields, field)
    ensures ExactLookup(doc.members, field) == Some(doc.members[i].value)
  {
    hide SECURITY_FIELDS, ExactLookup;
    FieldForFolds(doc.members[i].name, fields);
    assert Canonical(doc.members, field);
    ExactIsUnique(doc.members, field, i);
  }

  lemma ExactIsBound(members: seq<Member>, fields: seq<string>, field: string) returns (l: nat)
    requires field in fields && ExactLookup(members, field).Some?
    ensures l < |members| && BoundTo(members[l], fields, field)
    ensures ExactLookup(members, field) == Some(members[l].value)
  {
    l := ExactPosition(members, field);
  }

  /** Exactly which registrations decode: both fields, looked up by name, have their type. */
  lemma RegistrationDecodesExactly(doc: Document)
    ensures StrictDecode(doc, REGISTRATION_FIELDS, REGISTRATION_ZERO).Some? <==>
            Accepted(doc) && URIsIn(doc).Some? && MethodIn(doc).Some?
  {
    hide REGISTRATION_FIELDS, REGISTRATION_ZERO, SECURITY_FIELDS, Store, ListOf, TextIn, FieldFor;
    RegistrationConstants();
    if Accepted(doc) {
      FillSucceeds(REGISTRATION_ZERO, doc.members, REGISTRATION_FIELDS);
      if URIsIn(doc).Some? && MethodIn(doc).Some? {
        forall i | 0 <= i < |doc.members| ensures Holdable(REGISTRATION_ZERO, doc.members[i], REGISTRATION_FIELDS) {
          RegistrationHoldable(doc, i);
        }
      } else {
        UnreadableRegistration(doc);
      }
    }
  }

  lemma RegistrationHoldable(doc: Document, i: nat)
    requires Accepted(doc) && i < |doc.members| && URIsIn(doc).Some? && MethodIn(doc).Some?
    ensures Holdable(REGISTRATION_ZERO, doc.members[i], REGISTRATION_FIELDS)
  {
    hide REGISTRATION_FIELDS, REGISTRATION_ZERO, SECURITY_FIELDS, Store, ListOf, TextIn;
    RegistrationConstants();
    var f := FieldFor(doc.members[i].name, REGISTRATION_FIELDS);
    FieldForFolds(doc.members[i].name, REGISTRATION_FIELDS);
    StoreAlone(doc.members[i].value);
    if f.Some? {
      SecurityMember(doc, REGISTRATION_FIELDS, i, f.value);
    }
  }

  lemma UnreadableRegistration(doc: Document)
    requires Accepted(doc) && !(URIsIn(doc).Some? && MethodIn(doc).Some?)
    ensures exists i :: 0 <= i < |doc.members| && !Holdable(REGISTRATION_ZERO, doc.members[i], REGISTRATION_FIELDS)
  {
    hide REGISTRATION_FIELDS, REGISTRATION_ZERO, SECURITY_FIELDS, Store, FieldFor;
    RegistrationConstants();
    var field := if URIsIn(doc).None? then "redirect_uris" else "token_endpoint_auth_method";
    var l := ExactIsBound(doc.members, REGISTRATION_FIELDS, field);
    StoreAlone(doc.members[l].value);
    assert !Holdable(REGISTRATION_ZERO, doc.members[l], REGISTRATION_FIELDS);
  }

  /** What a registration decodes to. */
  lemma RegistrationReads(doc: Document)
    requires StrictDecode(doc, REGISTRATION_FIELDS, REGISTRATION_ZERO).Some?
    ensures var r := StrictDecode(doc, REGISTRATION_FIELDS, REGISTRATION_ZERO).value;
            && URIsIn(doc) == Some(TextsOf(r, "redirect_uris"))
            && MethodIn(doc) == Some(TextOf(r, "token_endpoint_auth_method"))
  {
    hide REGISTRATION_FIELDS, REGISTRATION_ZERO, SECURITY_FIELDS, Store, ListOf, TextIn, StrictDecode, ExactLookup;
    RegistrationConstants();
    RegistrationDecodesExactly(doc);
    SecurityFieldsDecodeExactly(doc, REGISTRATION_FIELDS, REGISTRATION_ZERO, "redirect_uris");
    SecurityFieldsDecodeExactly(doc, REGISTRATION_FIELDS, REGISTRATION_ZERO, "token_endpoint_auth_method");
    AloneReads(ExactLookup(doc.members, "redirect_uris"));
    AloneReads(ExactLookup(doc.members, "token_endpoint_auth_method"));
  }

  lemma AloneReads(v: Option<Json>)
    ensures ListOf(v).Some? ==>
              var r := Reading(Texts([], []), v);
              r.Some? && r.value.Texts? && r.value.items == ListOf(v).value
    ensures TextIn(v).Some? ==> Reading(Text(""), v) == Some(Text(TextIn(v).value))
  {
    if v.Some? {
      StoreAlone(v.value);
    }
  }

  // ---- Updates ------------------------------------------------------------------------------------

  predicate IsListField(field: string) {
    field == "redirect_uris" || field == "grant_types" || field == "response_types"
  }

  /** Every member that folds to a field of an update has its type. */
  ghost predicate TypesFit(ms: seq<Member>) {
    forall i, field :: 0 <= i < |ms| && BoundTo(ms[i], UPDATE_FIELDS, field) ==>
      if IsListField(field) then ListOf(Some(ms[i].value)).Some? else TextIn(Some(ms[i].value)).Some?
  }

  /** The last string among the members that fold to the field, or else the empty string. */
  function LastText(ms: seq<Member>, field: string): Option<string> {
    TextIn(LastBound(Text(""), ms, UPDATE_FIELDS, field))
  }

  /** The field shows this list: the last one bound to it has its length, and each position holds its text. */
  predicate Shows(ms: seq<Member>, field: string, texts: seq<string>) {
    && Length(Texts([], []), LastBound(Texts([], []), ms, UPDATE_FIELDS, field)) == |texts|
    && forall i :: 0 <= i < |texts| ==> Held(Texts([], []), ms, UPDATE_FIELDS, field, i) == texts[i]
  }

  lemma UpdateFieldKinds(field: string)
    requires field in UPDATE_FIELDS
    ensures field in UPDATE_ZERO
    ensures UPDATE_ZERO[field] == if IsListField(field) then Texts([], []) else Text("")
  {
    hide UPDATE_ZERO;
    FieldNames();
    UpdateZeroes();
  }

  /** Exactly which updates decode. */
  lemma UpdateDecodesExactly(doc: Document)
    ensures Decodes(doc) <==> Accepted(doc) && TypesFit(doc.members)
  {
    hide UPDATE_FIELDS, UPDATE_ZERO, SECURITY_FIELDS, Store, ListOf, TextIn, FieldFor, IsListField, DistinctNames,
      Canonical;
    if Accepted(doc) {
      FillSucceeds(UPDATE_ZERO, doc.members, UPDATE_FIELDS);
      forall i | 0 <= i < |doc.members|
        ensures Holdable(UPDATE_ZERO, doc.members[i], UPDATE_FIELDS) <==> MemberFits(doc.members[i])
      {
        HoldableFits(doc.members[i]);
      }
      assert TypesFit(doc.members) <==> forall i :: 0 <= i < |doc.members| ==> MemberFits(doc.members[i]);
    }
  }

  ghost predicate MemberFits(m: Member) {
    forall field :: BoundTo(m, UPDATE_FIELDS, field) ==>
      if IsListField(field) then ListOf(Some(m.value)).Some? else TextIn(Some(m.value)).Some?
  }

  lemma HoldableFits(m: Member)
    ensures Holdable(UPDATE_ZERO, m, UPDATE_FIELDS) <==> MemberFits(m)
  {
    hide UPDATE_FIELDS, UPDATE_ZERO, Store, ListOf, TextIn, FieldFor, IsListField;
    StoreAlone(m.value);
    var f := FieldFor(m.name, UPDATE_FIELDS);
    FieldForFolds(m.name, UPDATE_FIELDS);
    if f.Some? {
      UpdateFieldKinds(f.value);
      assert BoundTo(m, UPDATE_FIELDS, f.value);
    }
  }

  /** What an update decodes to. */
  lemma UpdateReads(doc: Document, texts: seq<string>)
    requires Decodes(doc)
    ensures LastText(doc.members, "client_id") == Some(TextOf(Decoded(doc), "client_id"))
    ensures MethodIn(doc) == Some(TextOf(Decoded(doc), "token_endpoint_auth_method"))
    ensures URIsIn(doc) == Some(TextsOf(Decoded(doc), "redirect_uris"))
    ensures TextsOf(Decoded(doc), "grant_types") == texts <==> Shows(doc.members, "grant_types", texts)
    ensures TextsOf(Decoded(doc), "response_types") == texts <==> Shows(doc.members, "response_types", texts)
  {
    hide UPDATE_FIELDS, UPDATE_ZERO, Store, ListOf, TextIn, Shows, LastText, URIsIn, MethodIn, Decodes;
    UpdateTextReads(doc);
    UpdateSecurityReads(doc);
    UpdateListReads(doc, "grant_types", texts);
    UpdateListReads(doc, "response_types", texts);
  }

  lemma UpdateTextReads(doc: Document)
    requires Decodes(doc)
    ensures LastText(doc.members, "client_id") == Some(TextOf(Decoded(doc), "client_id"))
  {
    hide UPDATE_FIELDS, UPDATE_ZERO, Store, LastBound, FieldFor;
    FieldNames();
    UpdateZeroes();
    TextIsLastBound(UPDATE_ZERO, doc.members, UPDATE_FIELDS, "client_id");
    var v := LastBound(Text(""), doc.members, UPDATE_FIELDS, "client_id");
    if v.Some? {
      StoreAlone(v.value);
    }
  }

  lemma UpdateSecurityReads(doc: Document)
    requires Decodes(doc)
    ensures MethodIn(doc) == Some(TextOf(Decoded(doc), "token_endpoint_auth_method"))
    ensures URIsIn(doc) == Some(TextsOf(Decoded(doc), "redirect_uris"))
  {
    hide UPDATE_FIELDS, UPDATE_ZERO, Store, SECURITY_FIELDS, ExactLookup;
    FieldNames();
    UpdateZeroes();
    SecurityFieldsDecodeExactly(doc, UPDATE_FIELDS, UPDATE_ZERO, "redirect_uris");
    SecurityFieldsDecodeExactly(doc, UPDATE_FIELDS, UPDATE_ZERO, "token_endpoint_auth_method");
    var u, t := ExactLookup(doc.members, "redirect_uris"), ExactLookup(doc.members, "token_endpoint_auth_method");
    if u.Some? {
      StoreAlone(u.value);
    }
    if t.Some? {
      StoreAlone(t.value);
    }
  }

  lemma UpdateListReads(doc: Document, field: string, texts: seq<string>)
    requires Decodes(doc) && (field == "grant_types" || field == "response_types")
    ensures TextsOf(Decoded(doc), field) == texts <==> Shows(doc.members, field, texts)
  {
    hide UPDATE_FIELDS, UPDATE_ZERO, Store, LastBound, Held, FieldFor;
    FieldNames();
    UpdateZeroes();
    ListItems(UPDATE_ZERO, doc.members, UPDATE_FIELDS, field);
  }
}
