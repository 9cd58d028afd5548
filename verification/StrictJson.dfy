/**
 The strict JSON object check in front of client metadata, and the struct decoding behind it.

 A document is the list of members the JSON decoder reports. Member names are sequences of runes; they are only
 ever compared with one another and with ASCII field names.
 */
module StrictJson {
  import opened Options
  import opened Enumerations

  datatype Json = JNull | JString(text: string) | JArray(items: seq<Json>) | JOther

  datatype Member = Member(name: string, value: Json)

  datatype Document = Malformed | NotObject | Object(members: seq<Member>, trailing: bool)

  /** The lower-case ASCII letter a rune folds to, if any; besides capitals, the long s and the Kelvin sign do. */
  function FoldRune(c: char): char {
    if 'A' <= c <= 'Z' then c - 'A' + 'a'
    else if c == '\U{017F}' then 's'
    else if c == '\U{212A}' then 'k'
    else c
  }

  /** `strings.EqualFold`, exact when one side is lower-case ASCII. */
  predicate EqualFold(a: string, b: string) {
    |a| == |b| && forall i :: 0 <= i < |a| ==> FoldRune(a[i]) == FoldRune(b[i])
  }

  // ---- Decoding into a struct, as encoding/json does it ---------------------------

  /** A list field keeps, behind the items it shows, what longer lists have left in its memory. */
  datatype Slot = Text(text: string) | Texts(items: seq<string>, spare: seq<string>)

  type Struct = map<string, Slot>

  /** Every item is a string or null, as a list of strings needs. */
  predicate AllTexts(items: seq<Json>) {
    forall i :: 0 <= i < |items| ==> items[i].JString? || items[i].JNull?
  }

  function At(memory: seq<string>, i: nat): string {
    if i < |memory| then memory[i] else ""
  }

  /** Items are stored position by position over the memory of the list; a null leaves its position alone. */
  function Overwritten(memory: seq<string>, items: seq<Json>): (r: seq<string>)
    ensures |r| == |items|
  {
    seq(|items|, i requires 0 <= i < |items| => if items[i].JString? then items[i].text else At(memory, i))
  }

  /** A null leaves a string alone and clears a list, as an empty list does; any other mismatch is an error. */
  function Store(slot: Slot, v: Json): Option<Slot> {
    match slot
    case Text(_) => (match v
      case JString(s) => Some(Text(s))
      case JNull => Some(slot)
      case _ => None)
    case Texts(items, spare) => (match v
      case JNull => Some(Texts([], []))
      case JArray(stored) =>
        var memory := items + spare;
        if !AllTexts(stored) then None
        else if stored == [] then Some(Texts([], []))
        else Some(Texts(Overwritten(memory, stored), if |stored| < |memory| then memory[|stored|..] else []))
      case _ => None)
  }

  function FirstFold(name: string, fields: seq<string>): Option<string> {
    if fields == [] then None
    else if EqualFold(name, fields[0]) then Some(fields[0])
    else FirstFold(name, fields[1..])
  }

  /** The field a member goes to: the one spelled like it, or else the first one equal up to case. */
  function FieldFor(name: string, fields: seq<string>): Option<string> {
    if name in fields then Some(name) else FirstFold(name, fields)
  }

  /** Stores one member, if a field takes it. */
  function Place(target: Struct, m: Member, fields: seq<string>): Option<Struct> {
    var f := FieldFor(m.name, fields);
    if f.None? || f.value !in target then Some(target)
    else
      var slot := Store(target[f.value], m.value);
      if slot.None? then None else Some(target[f.value := slot.value])
  }

  /** Members are stored one after the other. */
  function Fill(target: Struct, members: seq<Member>, fields: seq<string>): Option<Struct> {
    if members == [] then Some(target)
    else
      var r := Fill(target, members[..|members| - 1], fields);
      if r.None? then None else Place(r.value, members[|members| - 1], fields)
  }

  // ---- The strict check -----------------------------------------------------------

  const SECURITY_FIELDS: seq<string> := ["redirect_uris", "token_endpoint_auth_method"]

  predicate DistinctNames(members: seq<Member>) {
    forall i, j :: 0 <= i < j < |members| ==> members[i].name != members[j].name
  }

  /** Whatever is equal to `field` up to case is spelled exactly like it. */
  predicate Canonical(members: seq<Member>, field: string) {
    forall i :: 0 <= i < |members| && EqualFold(members[i].name, field) ==> members[i].name == field
  }

  predicate Accepted(doc: Document) {
    doc.Object? && !doc.trailing && DistinctNames(doc.members)
    && forall f :: f in SECURITY_FIELDS ==> Canonical(doc.members, f)
  }

  /** What a rune folds to: small ASCII letters are reached from their capitals, `s` and `k` from one more rune each. */
  lemma FoldExactly(c: char, l: char)
    requires 'a' <= l <= 'z'
    ensures FoldRune(c) == l <==>
            c == l || c as int == l as int - 32 || (l == 's' && c as int == 0x17F) || (l == 'k' && c as int == 0x212A)
    ensures FoldRune(l) == l
  {}

  /**
   Exactly which documents pass: one object and nothing after it, no name twice, and the two security fields in no other
   spelling than their own.
   */
  lemma AcceptedExactly(doc: Document)
    ensures Accepted(doc) <==>
            && doc.Object? && !doc.trailing
            && |ElementsOf(NamesOf(doc.members))| == |doc.members|
            && forall m :: m in doc.members ==>
                 && (EqualFold(m.name, "redirect_uris") ==> m.name == "redirect_uris")
                 && (EqualFold(m.name, "token_endpoint_auth_method") ==> m.name == "token_endpoint_auth_method")
  {
    hide EqualFold, SECURITY_FIELDS, Canonical;
    TwoSecurityFields();
    if doc.Object? {
      var names := NamesOf(doc.members);
      AllDifferent(names);
      assert forall i :: 0 <= i < |names| ==> names[i] == doc.members[i].name;
      assert DistinctNames(doc.members) <==> |ElementsOf(names)| == |names|;
      CanonicalMembers(doc.members, "redirect_uris");
      CanonicalMembers(doc.members, "token_endpoint_auth_method");
    }
  }

  lemma TwoSecurityFields()
    ensures forall f :: f in SECURITY_FIELDS <==> f == "redirect_uris" || f == "token_endpoint_auth_method"
  {
    assert SECURITY_FIELDS[0] == "redirect_uris" && SECURITY_FIELDS[1] == "token_endpoint_auth_method";
  }

  lemma CanonicalMembers(members: seq<Member>, field: string)
    ensures Canonical(members, field) <==> forall m :: m in members ==> (EqualFold(m.name, field) ==> m.name == field)
  {
    hide EqualFold;
  }

  function NamesOf(members: seq<Member>): (r: seq<string>)
    ensures |r| == |members|
  {
    seq(|members|, i requires 0 <= i < |members| => members[i].name)
  }

  function StrictDecode(doc: Document, fields: seq<string>, zero: Struct): Option<Struct> {
    if Accepted(doc) then Fill(zero, doc.members, fields) else None
  }

  lemma SecurityFieldsApart()
    ensures !EqualFold(SECURITY_FIELDS[0], SECURITY_FIELDS[1])
    ensures forall name :: EqualFold(name, SECURITY_FIELDS[0]) ==> !EqualFold(name, SECURITY_FIELDS[1])
  {
    assert |SECURITY_FIELDS[0]| == 13 && |SECURITY_FIELDS[1]| == 26;
  }

  /**
   The duplicate test on security fields inside the loop is unreachable: a second member with the exact name has
   already failed the test on names. It is the assertion before `seenSecurity` grows.
   */
  method DecodeStrictJSONObject(doc: Document, fields: seq<string>, zero: Struct) returns (r: Option<Struct>)
    ensures r == StrictDecode(doc, fields, zero)
  {
    if !doc.Object? {
      return None;
    }
    var members := doc.members;
    var seenExact: set<string> := {};
    var seenSecurity: set<string> := {};
    for k := 0 to |members|
      invariant seenExact == set i | 0 <= i < k :: members[i].name
      invariant seenSecurity <= seenExact
      invariant DistinctNames(members[..k])
      invariant forall f :: f in SECURITY_FIELDS ==> Canonical(members[..k], f)
    {
      var name := members[k].name;
      if name in seenExact {
        return None;
      }
      seenExact := seenExact + {name};
      var n := 0;
      ghost var seenBefore := seenSecurity;
      while n < |SECURITY_FIELDS|
        invariant 0 <= n <= |SECURITY_FIELDS|
        invariant seenSecurity == seenBefore
        invariant forall m :: 0 <= m < n ==> !EqualFold(name, SECURITY_FIELDS[m])
      {
        if EqualFold(name, SECURITY_FIELDS[n]) {
          if name != SECURITY_FIELDS[n] {
            assert !Canonical(members, SECURITY_FIELDS[n]) by { assert members[k].name == name; }
            return None;
          }
          assert SECURITY_FIELDS[n] !in seenSecurity;
          seenSecurity := seenSecurity + {SECURITY_FIELDS[n]};
          SecurityFieldsApart();
          break;
        }
        n := n + 1;
      }
      assert members[..k + 1] == members[..k] + [members[k]];
    }
    assert members[..|members|] == members;
    if doc.trailing {
      return None;
    }
    r := Fill(zero, members, fields);
  }

  // ---- Agreement with exact lookup --------------------------------------------------

  /** The value of the one member spelled `field`. */
  function ExactLookup(members: seq<Member>, field: string): Option<Json> {
    if members == [] then None
    else
      var last := members[|members| - 1];
      if last.name == field then Some(last.value) else ExactLookup(members[..|members| - 1], field)
  }

  lemma {:induction false} AbsentLookup(members: seq<Member>, field: string)
    requires forall i :: 0 <= i < |members| ==> members[i].name != field
    ensures ExactLookup(members, field) == None
  {
    if members != [] {
      AbsentLookup(members[..|members| - 1], field);
    }
  }

  lemma FieldForFolds(name: string, fields: seq<string>)
    ensures var f := FieldFor(name, fields); f.Some? ==> f.value in fields && EqualFold(name, f.value)
  {
    FirstFoldFolds(name, fields);
  }

  lemma {:induction false} FirstFoldFolds(name: string, fields: seq<string>)
    ensures var f := FirstFold(name, fields); f.Some? ==> f.value in fields && EqualFold(name, f.value)
  {
    if fields != [] {
      FirstFoldFolds(name, fields[1..]);
    }
  }

  /** Storing a member changes the field it is bound to, and no other. */
  lemma PlaceAt(target: Struct, m: Member, fields: seq<string>, field: string)
    requires field in target
    ensures var r := Place(target, m, fields);
            r.Some? ==>
              field in r.value
              && Some(r.value[field]) == if BoundTo(m, fields, field) then Store(target[field], m.value)
                else Some(target[field])
  {}

  predicate BoundTo(m: Member, fields: seq<string>, field: string) {
    FieldFor(m.name, fields) == Some(field)
  }

  /** For a canonically spelled field, decoding up to case with the last member winning is lookup of the exact name. */
  lemma {:induction false} FillIsExactLookup(target: Struct, members: seq<Member>, fields: seq<string>, field: string)
    requires field in fields && field in target && DistinctNames(members) && Canonical(members, field)
    ensures var r := Fill(target, members, fields);
            r.Some? ==>
              field in r.value && Some(r.value[field]) == Reading(target[field], ExactLookup(members, field))
  {
    if members != [] {
      var init, last := members[..|members| - 1], members[|members| - 1];
      FillIsExactLookup(target, init, fields, field);
      FieldForFolds(last.name, fields);
      var before := Fill(target, init, fields);
      if before.Some? {
        PlaceAt(before.value, last, fields, field);
        if last.name == field {
          AbsentLookup(init, field);
        }
      }
    }
  }

  /**
   On every accepted document the two security fields decode to the value of the one member with their exact name,
   and no other member could have been taken for them.
   */
  lemma SecurityFieldsDecodeExactly(doc: Document, fields: seq<string>, zero: Struct, field: string)
    requires field in SECURITY_FIELDS && field in fields && field in zero
    requires StrictDecode(doc, fields, zero).Some?
    ensures var r := StrictDecode(doc, fields, zero).value;
            field in r && Some(r[field]) == Reading(zero[field], ExactLookup(doc.members, field))
    ensures forall i, j :: 0 <= i < |doc.members| && 0 <= j < |doc.members|
              && EqualFold(doc.members[i].name, field) && EqualFold(doc.members[j].name, field)
              ==> i == j
  {
    FillIsExactLookup(zero, doc.members, fields, field);
    forall i, j | 0 <= i < |doc.members| && 0 <= j < |doc.members|
                  && EqualFold(doc.members[i].name, field) && EqualFold(doc.members[j].name, field)
      ensures i == j
    {
      assert doc.members[i].name == field == doc.members[j].name;
    }
  }

  // ---- What decoding does to any field -------------------------------------------------------

  /** What a field holds if this value is all it gets. */
  function Reading(slot: Slot, v: Option<Json>): Option<Slot> {
    if v.None? then Some(slot) else Store(slot, v.value)
  }

  /** Whether a value replaces what is there: a null leaves a string alone. */
  predicate Wins(slot: Slot, v: Json) {
    slot.Texts? || !v.JNull?
  }

  /** The value of the last member that is bound to the field, up to case, and wins. */
  function LastBound(slot: Slot, members: seq<Member>, fields: seq<string>, field: string): Option<Json> {
    if members == [] then None
    else
      var last := members[|members| - 1];
      if BoundTo(last, fields, field) && Wins(slot, last.value) then Some(last.value)
      else LastBound(slot, members[..|members| - 1], fields, field)
  }

  /** Member `k` is the last one bound to the field that wins. */
  predicate LastWinner(slot: Slot, members: seq<Member>, fields: seq<string>, field: string, k: nat) {
    && k < |members| && BoundTo(members[k], fields, field) && Wins(slot, members[k].value)
    && forall l :: k < l < |members| && BoundTo(members[l], fields, field) ==> !Wins(slot, members[l].value)
  }

  lemma {:induction false} WinnerIsLastBound(slot: Slot, members: seq<Member>, fields: seq<string>, field: string,
      k: nat)
    requires LastWinner(slot, members, fields, field, k)
    ensures LastBound(slot, members, fields, field) == Some(members[k].value)
  {
    if k < |members| - 1 {
      WinnerIsLastBound(slot, members[..|members| - 1], fields, field, k);
    }
  }

  lemma {:induction false} LastBoundHasWinner(slot: Slot, members: seq<Member>, fields: seq<string>, field: string)
    returns (k: nat)
    requires LastBound(slot, members, fields, field).Some?
    ensures LastWinner(slot, members, fields, field, k)
    ensures LastBound(slot, members, fields, field) == Some(members[k].value)
  {
    var last := |members| - 1;
    if BoundTo(members[last], fields, field) && Wins(slot, members[last].value) {
      k := last;
    } else {
      k := LastBoundHasWinner(slot, members[..last], fields, field);
    }
  }

  lemma {:induction false} NoneMeansNoWinner(slot: Slot, members: seq<Member>, fields: seq<string>, field: string,
      l: nat)
    requires LastBound(slot, members, fields, field).None? && l < |members| && BoundTo(members[l], fields, field)
    ensures !Wins(slot, members[l].value)
  {
    if l < |members| - 1 {
      NoneMeansNoWinner(slot, members[..|members| - 1], fields, field, l);
    }
  }

  /** For every member list: a string field decodes to the last string among the members bound to it up to case. */
  lemma {:induction false} TextIsLastBound(target: Struct, members: seq<Member>, fields: seq<string>, field: string)
    requires field in target && target[field].Text?
    ensures var r := Fill(target, members, fields);
            r.Some? ==>
              field in r.value && r.value[field].Text?
              && Some(r.value[field]) == Reading(target[field], LastBound(target[field], members, fields, field))
  {
    hide FieldFor;
    if members != [] {
      var init, last := members[..|members| - 1], members[|members| - 1];
      TextIsLastBound(target, init, fields, field);
      var before := Fill(target, init, fields);
      if before.Some? {
        PlaceAt(before.value, last, fields, field);
      }
    }
  }

  // ---- Lists, item by item ---------------------------------------------------------------------

  function Memory(slot: Slot): seq<string>
    requires slot.Texts?
  {
    slot.items + slot.spare
  }

  /** The member is a list that has a string at position `i`. */
  predicate Writes(v: Json, i: nat) {
    v.JArray? && i < |v.items| && v.items[i].JString?
  }

  predicate Clears(v: Json) {
    v.JNull? || (v.JArray? && v.items == [])
  }

  /**
   The text the members leave at position `i` of a list field: the last one written there since the list was cleared.
   */
  function Held(slot: Slot, members: seq<Member>, fields: seq<string>, field: string, i: nat): string
    requires slot.Texts?
  {
    if members == [] then At(Memory(slot), i)
    else
      var init, last := members[..|members| - 1], members[|members| - 1];
      if !BoundTo(last, fields, field) then Held(slot, init, fields, field, i)
      else if Clears(last.value) then ""
      else if Writes(last.value, i) then last.value.items[i].text
      else Held(slot, init, fields, field, i)
  }

  /** How many items the field shows: as many as the last list bound to it has. */
  function Length(slot: Slot, v: Option<Json>): nat
    requires slot.Texts?
  {
    if v.None? then |slot.items| else if v.value.JArray? then |v.value.items| else 0
  }

  lemma StoreList(slot: Slot, v: Json)
    requires slot.Texts? && Store(slot, v).Some?
    ensures var r := Store(slot, v).value;
            && r.Texts? && |r.items| == Length(slot, Some(v))
            && forall i: nat :: At(Memory(r), i) ==
                 if Clears(v) then "" else if Writes(v, i) then v.items[i].text else At(Memory(slot), i)
  {
    var r := Store(slot, v).value;
    if !Clears(v) {
      var memory := slot.items + slot.spare;
      assert |r.items| == |v.items|;
      forall i: nat ensures At(Memory(r), i) == if Writes(v, i) then v.items[i].text else At(memory, i) {
        if i < |v.items| {
          assert Memory(r)[i] == r.items[i];
        } else if i < |memory| {
          assert Memory(r)[i] == memory[|v.items|..][i - |v.items|];
        }
      }
    }
  }

  /**
   For every member list: a list field decodes item by item. It has the length of the last list bound to it, and at each
   position the text last written there since it was cleared, a null writing nothing.
   */
  lemma {:induction false} ListIsItemByItem(target: Struct, members: seq<Member>, fields: seq<string>, field: string)
    requires field in target && target[field].Texts?
    ensures var r := Fill(target, members, fields);
            r.Some? ==>
              && field in r.value && r.value[field].Texts?
              && |r.value[field].items| == Length(target[field], LastBound(target[field], members, fields, field))
              && forall i: nat :: At(Memory(r.value[field]), i) == Held(target[field], members, fields, field, i)
  {
    hide FieldFor, At, Memory, Store, Clears, Writes;
    if members != [] {
      var init, last := members[..|members| - 1], members[|members| - 1];
      ListIsItemByItem(target, init, fields, field);
      var before := Fill(target, init, fields);
      if before.Some? {
        PlaceAt(before.value, last, fields, field);
        if BoundTo(last, fields, field) && Store(before.value[field], last.value).Some? {
          StoreList(before.value[field], last.value);
        }
      }
    }
  }

  /** So these are the items it shows. */
  lemma ListItems(target: Struct, members: seq<Member>, fields: seq<string>, field: string)
    requires field in target && target[field].Texts? && Fill(target, members, fields).Some?
    ensures var r := Fill(target, members, fields).value;
            && field in r && r[field].Texts?
            && |r[field].items| == Length(target[field], LastBound(target[field], members, fields, field))
            && forall i :: 0 <= i < |r[field].items| ==>
                 r[field].items[i] == Held(target[field], members, fields, field, i)
  {
    hide Held, Fill, LastBound;
    ListIsItemByItem(target, members, fields, field);
    var slot := Fill(target, members, fields).value[field];
    assert forall i :: 0 <= i < |slot.items| ==> At(Memory(slot), i) == slot.items[i];
  }

  // ---- When decoding succeeds --------------------------------------------------------------------

  /** The member's value has a type that its field, if any, can hold. */
  predicate Holdable(target: Struct, m: Member, fields: seq<string>) {
    var f := FieldFor(m.name, fields);
    f.Some? && f.value in target ==> Store(target[f.value], m.value).Some?
  }

  predicate SameKinds(a: Struct, b: Struct) {
    a.Keys == b.Keys && forall f :: f in a ==> a[f].Text? == b[f].Text?
  }

  lemma HoldableByKind(a: Struct, b: Struct, m: Member, fields: seq<string>)
    requires SameKinds(a, b)
    ensures Holdable(a, m, fields) <==> Holdable(b, m, fields)
  {}

  /** Decoding succeeds exactly when every bound member has a value that its field can hold. */
  lemma {:induction false} FillSucceeds(target: Struct, members: seq<Member>, fields: seq<string>)
    ensures Fill(target, members, fields).Some? <==>
            forall i :: 0 <= i < |members| ==> Holdable(target, members[i], fields)
    ensures Fill(target, members, fields).Some? ==> SameKinds(target, Fill(target, members, fields).value)
  {
    if members != [] {
      var init, last := members[..|members| - 1], members[|members| - 1];
      FillSucceeds(target, init, fields);
      assert members == init + [last];
      var before := Fill(target, init, fields);
      if before.Some? {
        HoldableByKind(target, before.value, last, fields);
        PlaceSucceeds(before.value, last, fields);
      } else {
        assert forall i :: 0 <= i < |init| ==> init[i] == members[i];
      }
    }
  }

  lemma PlaceSucceeds(target: Struct, m: Member, fields: seq<string>)
    ensures Place(target, m, fields).Some? <==> Holdable(target, m, fields)
    ensures Place(target, m, fields).Some? ==> SameKinds(target, Place(target, m, fields).value)
  {}

  // ---- Exactly which fields decode exactly ---------------------------------------------------------

  /** What the field shows to a reader of the struct. */
  function Shown(slot: Slot): Slot {
    if slot.Texts? then Texts(slot.items, []) else slot
  }

  predicate Blank(slot: Slot) {
    slot.Texts? ==> slot == Texts([], [])
  }

  /** The field shows what its exact name says, or its zero value if that name is absent. */
  predicate DecodesExactly(doc: Document, fields: seq<string>, zero: Struct, field: string)
    requires StrictDecode(doc, fields, zero).Some? && field in zero
  {
    var r, alone := StrictDecode(doc, fields, zero).value, Reading(zero[field], ExactLookup(doc.members, field));
    field in r && alone.Some? && Shown(r[field]) == Shown(alone.value)
  }

  /** What a list alone has at position `i`. */
  function ItemAlone(v: Option<Json>, i: nat): string {
    if v.Some? && Writes(v.value, i) then v.value.items[i].text else ""
  }

  /** For a string: the last member that wins has another spelling, and says something else than the exact one. */
  ghost predicate TextOverruled(members: seq<Member>, fields: seq<string>, slot: Slot, field: string) {
    exists k: nat ::
      LastWinner(slot, members, fields, field, k) && members[k].name != field
      && Reading(slot, Some(members[k].value)) != Reading(slot, ExactLookup(members, field))
  }

  /**
   For a list: the last member bound has another spelling and another length than the exact one, or at some position the
   exact list does not say what is written there last since a clearing: another spelling has overwritten it, or it has a
   null there and an earlier list still shows.
   */
  ghost predicate ListOverruled(members: seq<Member>, fields: seq<string>, slot: Slot, field: string)
    requires slot.Texts?
  {
    var exact := ExactLookup(members, field);
    exists k: nat ::
      && LastWinner(slot, members, fields, field, k)
      && ((members[k].name != field && Length(slot, Some(members[k].value)) != Length(slot, exact))
          || exists i: nat ::
               i < Length(slot, Some(members[k].value)) && Held(slot, members, fields, field, i) != ItemAlone(exact, i))
  }

  ghost predicate Overruled(members: seq<Member>, fields: seq<string>, slot: Slot, field: string) {
    if slot.Text? then TextOverruled(members, fields, slot, field) else ListOverruled(members, fields, slot, field)
  }

  lemma ListAlone(slot: Slot, v: Option<Json>)
    requires slot == Texts([], []) && Reading(slot, v).Some?
    ensures var r := Reading(slot, v).value;
            r.Texts? && |r.items| == Length(slot, v) && forall i: nat :: i < |r.items| ==> r.items[i] == ItemAlone(v, i)
  {
    if v.Some? {
      StoreList(slot, v.value);
      var r := Reading(slot, v).value;
      assert forall i: nat :: i < |r.items| ==> At(Memory(r), i) == r.items[i];
    }
  }

  lemma ExactIsReadable(doc: Document, fields: seq<string>, zero: Struct, field: string)
    requires field in fields && field in zero && StrictDecode(doc, fields, zero).Some?
    ensures Reading(zero[field], ExactLookup(doc.members, field)).Some?
  {
    var exact := ExactLookup(doc.members, field);
    FillSucceeds(zero, doc.members, fields);
    if exact.Some? {
      var l := ExactPosition(doc.members, field);
      assert Holdable(zero, doc.members[l], fields);
    }
  }

  lemma TextDecodesExactlyUnless(doc: Document, fields: seq<string>, zero: Struct, field: string)
    requires field in fields && field in zero && StrictDecode(doc, fields, zero).Some? && zero[field].Text?
    ensures DecodesExactly(doc, fields, zero, field) <==> !TextOverruled(doc.members, fields, zero[field], field)
  {
    hide Fill, Store;
    var members, slot := doc.members, zero[field];
    TextIsLastBound(zero, members, fields, field);
    ExactIsReadable(doc, fields, zero, field);
    TextReading(slot, ExactLookup(members, field));
    var last, exact := LastBound(slot, members, fields, field), ExactLookup(members, field);
    if last.Some? {
      var k := LastBoundHasWinner(slot, members, fields, field);
      if members[k].name == field {
        ExactIsUnique(members, field, k);
      }
    } else if exact.Some? {
      var l := ExactPosition(members, field);
      NoneMeansNoWinner(slot, members, fields, field, l);
      StoreNull(slot);
    }
    forall k: nat | LastWinner(slot, members, fields, field, k) ensures last == Some(members[k].value) {
      WinnerIsLastBound(slot, members, fields, field, k);
    }
  }

  lemma TextReading(slot: Slot, v: Option<Json>)
    requires slot.Text? && Reading(slot, v).Some?
    ensures Reading(slot, v).value.Text?
  {}

  lemma StoreNull(slot: Slot)
    ensures slot.Text? ==> Store(slot, JNull) == Some(slot)
  {}

  lemma ListDecodesExactlyUnless(doc: Document, fields: seq<string>, zero: Struct, field: string)
    requires field in fields && field in zero && StrictDecode(doc, fields, zero).Some? && zero[field] == Texts([], [])
    ensures DecodesExactly(doc, fields, zero, field) <==> !ListOverruled(doc.members, fields, zero[field], field)
  {
    hide Fill, Store, Held, ItemAlone, Length, FieldFor;
    var members, slot := doc.members, zero[field];
    var last, exact := LastBound(slot, members, fields, field), ExactLookup(members, field);
    ListItems(zero, members, fields, field);
    ExactIsReadable(doc, fields, zero, field);
    ListAlone(slot, exact);
    forall k: nat | LastWinner(slot, members, fields, field, k)
      ensures last == Some(members[k].value) && (members[k].name == field ==> exact == last)
    {
      WinnerIsLastBound(slot, members, fields, field, k);
      if members[k].name == field {
        ExactIsUnique(members, field, k);
      }
    }
    if last.Some? {
      var k := LastBoundHasWinner(slot, members, fields, field);
    } else if exact.Some? {
      var l := ExactPosition(members, field);
      BoundByName(members[l], fields, field);
      NoneMeansNoWinner(slot, members, fields, field, l);
    }
  }

  lemma BoundByName(m: Member, fields: seq<string>, field: string)
    requires m.name == field && field in fields
    ensures BoundTo(m, fields, field)
  {}

  /** Exactly when an accepted document decodes a field, of whatever name and kind, as exact lookup would. */
  lemma FieldsDecodeExactlyUnless(doc: Document, fields: seq<string>, zero: Struct, field: string)
    requires field in fields && field in zero && Blank(zero[field]) && StrictDecode(doc, fields, zero).Some?
    ensures DecodesExactly(doc, fields, zero, field) <==> !Overruled(doc.members, fields, zero[field], field)
  {
    hide DecodesExactly, TextOverruled, ListOverruled, StrictDecode;
    if zero[field].Text? {
      TextDecodesExactlyUnless(doc, fields, zero, field);
    } else {
      ListDecodesExactlyUnless(doc, fields, zero, field);
    }
  }

  lemma {:induction false} ExactIsUnique(members: seq<Member>, field: string, k: nat)
    requires DistinctNames(members) && k < |members| && members[k].name == field
    ensures ExactLookup(members, field) == Some(members[k].value)
  {
    if k < |members| - 1 {
      assert members[k].name != members[|members| - 1].name;
      ExactIsUnique(members[..|members| - 1], field, k);
    }
  }

  lemma {:induction false} ExactPosition(members: seq<Member>, field: string) returns (l: nat)
    requires ExactLookup(members, field).Some?
    ensures l < |members| && members[l].name == field && ExactLookup(members, field) == Some(members[l].value)
  {
    if members[|members| - 1].name == field {
      l := |members| - 1;
    } else {
      l := ExactPosition(members[..|members| - 1], field);
    }
  }

  // ---- The two request structs --------------------------------------------------------

  const REGISTRATION_FIELDS: seq<string> := ["redirect_uris", "token_endpoint_auth_method"]

  const REGISTRATION_ZERO: Struct := map["redirect_uris" := Texts([], []), "token_endpoint_auth_method" := Text("")]

  const UPDATE_FIELDS: seq<string> :=
    ["client_id", "redirect_uris", "token_endpoint_auth_method", "grant_types", "response_types"]

  const UPDATE_ZERO: Struct := REGISTRATION_ZERO[
    "client_id" := Text("")]["grant_types" := Texts([], [])]["response_types" := Texts([], [])]

  function TextOf(target: Struct, field: string): string {
    if field in target && target[field].Text? then target[field].text else ""
  }

  function TextsOf(target: Struct, field: string): seq<string> {
    if field in target && target[field].Texts? then target[field].items else []
  }
}
