/**
 * `getAllAttributeValues` of both views: the list of labelled values shown in
 * an account's detail modal. A table-driven first phase takes, for every group
 * of alternative attribute names, the first name whose value is present; a
 * second phase adds every remaining attribute whose value is present and not
 * already shown, under a label derived from its name. Both views run the same
 * algorithm; the canvas view has a table of 10 groups, the list view one of 18.
 */
module AttributeList {
  import opened Wrappers
  import opened JsObject
  import opened JsStrings
  import opened JsValues

  /** The icon components of the modal, as opaque tags. */
  datatype Icon =
    | CreditCard | Hash | FileText | Building2 | MapPin | MapPinned | Shield | User | Phone | Mail
    | Home | Package | Calendar | CheckCircle | MessageSquare | Layers | FileSpreadsheet

  /** One row of a `fieldMappings` table: alternative attribute names, in priority order. */
  datatype Group = Group(keys: seq<string>, caption: string, icon: Icon)

  /** One entry of the modal. */
  datatype Field = Field(caption: string, value: Cell, icon: Icon)

  type Attributes = Object<string, Cell>

  /** The table of the canvas view. */
  const CanvasGroups: seq<Group> := [
    Group(["accountNo", "accountno", "Account No", "AccountNo"], "Account Number", CreditCard),
    Group(["sNo", "sno", "S.No", "SNo"], "Serial Number", Hash),
    Group(["fscCode", "fsccode", "FSC Code", "FSC"], "FSC Code", Building2),
    Group(["state", "State"], "State", MapPin),
    Group(["district", "District"], "District", MapPinned),
    Group(["policeStation", "Police Station"], "Police Station", Shield),
    Group(["designation", "Designation"], "Designation", User),
    Group(["mobileNumber", "Mobile Number", "mobile", "Phone"], "Mobile Number", Phone),
    Group(["email", "Email"], "Email", Mail),
    Group(["layer", "Layer"], "Layer", Layers)]

  /** The table of the list view. */
  const ListGroups: seq<Group> := [
    Group(["accountNo", "accountno", "Account No", "Account No.", "AccountNo", "Account_No", "acc_no", "Acknowledgement N", "AcknowledgementN"],
          "Account Number", CreditCard),
    Group(["sNo", "sno", "S.No", "S No", "SNo", "Serial No", "SerialNo", "serial_no"], "Serial Number", Hash),
    Group(["acknowledgementN", "acknowledgementn", "Acknowledgement N", "Acknowledgement", "AcknowledgementN", "ack_no"],
          "Acknowledgement", FileText),
    Group(["ifscCode", "ifsccode", "IFSC Code", "IFSCCode", "IFSC", "ifsc_code", "ifsc"], "IFSC Code", Building2),
    Group(["state", "State", "STATE", "state_name", "StateName"], "State", MapPin),
    Group(["district", "District", "DISTRICT", "district_name", "DistrictName"], "District", MapPinned),
    Group(["policeStation", "policestation", "Police Station", "PoliceStation", "police Station Name of Complain reported officer",
           "PS Name", "ps_name", "police_station"], "Police Station", Shield),
    Group(["designation", "Designation", "DESIGNATION", "post", "Post", "Position"], "Designation", User),
    Group(["mobileNumber", "mobilenumber", "Mobile Number", "MobileNumber", "Mobile", "mobile", "Phone", "phone", "Contact",
           "contact_no", "mobile_no"], "Mobile Number", Phone),
    Group(["email", "Email", "EMAIL", "E-mail", "e-mail", "EmailID", "email_id", "email_address"], "Email", Mail),
    Group(["name", "Name", "NAME", "full_name", "FullName", "PersonName", "person_name"], "Name", User),
    Group(["address", "Address", "ADDRESS", "full_address", "FullAddress"], "Address", Home),
    Group(["pincode", "Pincode", "PINCODE", "PIN", "pin", "postal_code", "PostalCode", "zip"], "Pincode", MapPin),
    Group(["amount", "Amount", "AMOUNT", "transaction_amount", "TransactionAmount", "value", "Value"], "Amount", Package),
    Group(["date", "Date", "DATE", "transaction_date", "TransactionDate", "timestamp", "Timestamp"], "Date", Calendar),
    Group(["status", "Status", "STATUS", "transaction_status", "TransactionStatus"], "Status", CheckCircle),
    Group(["remarks", "Remarks", "REMARKS", "comments", "Comments", "notes", "Notes", "description", "Description"],
          "Remarks", MessageSquare),
    Group(["layer", "Layer", "LAYER", "level", "Level"], "Layer", Layers)]

  /** `attributes[key]`, with `undefined` for a missing key. */
  function Lookup(attrs: Attributes, key: string): (r: Cell) {
    Get(attrs, key).GetOr(Undef)
  }

  // ---------------------------------------------------------------- the mapping phase

  /** The value of the first name in `keys` whose value is present. */
  function FirstPresent(attrs: Attributes, keys: seq<string>): (r: Option<Cell>) {
    if keys == [] then None
    else if Present(Lookup(attrs, keys[0])) then Some(Lookup(attrs, keys[0]))
    else FirstPresent(attrs, keys[1..])
  }

  /**
   * A group yields nothing exactly when none of its names has a present value;
   * otherwise it yields the value of one of its names that is present, and no
   * name before that one has a present value.
   */
  lemma {:induction false} FirstPresentSpec(attrs: Attributes, keys: seq<string>)
    ensures FirstPresent(attrs, keys).None? <==> forall i :: 0 <= i < |keys| ==> !Present(Lookup(attrs, keys[i]))
    ensures FirstPresent(attrs, keys).Some? ==>
              exists i :: 0 <= i < |keys| && FirstPresent(attrs, keys).value == Lookup(attrs, keys[i]) &&
                          Present(Lookup(attrs, keys[i])) && forall j :: 0 <= j < i ==> !Present(Lookup(attrs, keys[j]))
  {
    if keys != [] {
      FirstPresentSpec(attrs, keys[1..]);
      assert forall i :: 0 < i < |keys| ==> keys[i] == keys[1..][i - 1];
      if !Present(Lookup(attrs, keys[0])) && FirstPresent(attrs, keys).Some? {
        var i :| 0 <= i < |keys[1..]| && FirstPresent(attrs, keys[1..]).value == Lookup(attrs, keys[1..][i]) &&
                 Present(Lookup(attrs, keys[1..][i])) && forall j :: 0 <= j < i ==> !Present(Lookup(attrs, keys[1..][j]));
        assert forall j :: 0 <= j < i + 1 ==> !Present(Lookup(attrs, keys[j])) by {
          forall j | 0 <= j < i + 1
            ensures !Present(Lookup(attrs, keys[j]))
          {
            if j > 0 {
              assert keys[j] == keys[1..][j - 1];
            }
          }
        }
      }
    }
  }

  /** The entry of one group, if any. */
  function GroupField(attrs: Attributes, g: Group): (r: seq<Field>) {
    match FirstPresent(attrs, g.keys)
    case Some(v) => [Field(g.caption, v, g.icon)]
    case None => []
  }

  /** The first phase: the groups' entries in table order. */
  function Mapped(attrs: Attributes, groups: seq<Group>): (r: seq<Field>) {
    if groups == [] then []
    else Mapped(attrs, groups[..|groups| - 1]) + GroupField(attrs, groups[|groups| - 1])
  }

  /**
   * The first phase has at most one entry per group; every entry is the label
   * and icon of a group with the group's first present value, and every group
   * with a present value has its entry.
   */
  lemma {:induction false} MappedSpec(attrs: Attributes, groups: seq<Group>)
    ensures |Mapped(attrs, groups)| <= |groups|
    ensures forall f :: f in Mapped(attrs, groups) ==>
              exists gi :: 0 <= gi < |groups| && FirstPresent(attrs, groups[gi].keys) == Some(f.value) &&
                           f.caption == groups[gi].caption && f.icon == groups[gi].icon
    ensures forall gi :: 0 <= gi < |groups| && FirstPresent(attrs, groups[gi].keys).Some? ==>
              Field(groups[gi].caption, FirstPresent(attrs, groups[gi].keys).value, groups[gi].icon) in Mapped(attrs, groups)
  {
    if groups != [] {
      var init := groups[..|groups| - 1];
      MappedSpec(attrs, init);
      assert forall gi :: 0 <= gi < |init| ==> init[gi] == groups[gi];
    }
  }

  /** Every entry of the first phase holds a present value. */
  lemma {:induction false} MappedPresent(attrs: Attributes, groups: seq<Group>)
    ensures forall f :: f in Mapped(attrs, groups) ==> Present(f.value)
  {
    if groups != [] {
      MappedPresent(attrs, groups[..|groups| - 1]);
      var g := groups[|groups| - 1];
      FirstPresentSpec(attrs, g.keys);
    }
  }

  // ---------------------------------------------------------------- the remainder phase

  /** `fields.some(f => f.value === value)`. */
  predicate Shows(fields: seq<Field>, value: Cell) {
    exists i :: 0 <= i < |fields| && fields[i].value == value
  }

  /** `key.replace(/_/g, ' ')`. */
  function UnderscoresToSpaces(s: string): (r: string)
    ensures |r| == |s|
    ensures forall i :: 0 <= i < |s| ==> r[i] == if s[i] == '_' then ' ' else s[i]
  {
    if s == [] then [] else [if s[0] == '_' then ' ' else s[0]] + UnderscoresToSpaces(s[1..])
  }

  predicate IsUpper(c: char) {
    'A' <= c <= 'Z'
  }

  /** `.replace(/([A-Z])/g, ' $1')`: a space before every capital letter. */
  function SpaceBeforeCapitals(s: string): (r: string) {
    if s == [] then []
    else (if IsUpper(s[0]) then [' ', s[0]] else [s[0]]) + SpaceBeforeCapitals(s[1..])
  }

  /** The label of a remaining attribute. */
  function Label(key: string): (r: string) {
    Trim(SpaceBeforeCapitals(UnderscoresToSpaces(key)))
  }

  /** Every capital after the first character stands right after a space. */
  predicate CapitalsSpaced(s: string) {
    forall i :: 0 < i < |s| && IsUpper(s[i]) ==> s[i - 1] == ' '
  }

  lemma {:induction false} SpaceBeforeCapitalsSpec(s: string)
    ensures '_' !in s ==> '_' !in SpaceBeforeCapitals(s)
    ensures CapitalsSpaced(SpaceBeforeCapitals(s))
    ensures SpaceBeforeCapitals(s) == [] || !IsUpper(SpaceBeforeCapitals(s)[0])
  {
    if s != [] {
      SpaceBeforeCapitalsSpec(s[1..]);
      var head := if IsUpper(s[0]) then [' ', s[0]] else [s[0]];
      var r := head + SpaceBeforeCapitals(s[1..]);
      forall i | 0 < i < |r| && IsUpper(r[i])
        ensures r[i - 1] == ' '
      {
        if i >= |head| {
          assert r[i] == SpaceBeforeCapitals(s[1..])[i - |head|];
          if i > |head| {
            assert r[i - 1] == SpaceBeforeCapitals(s[1..])[i - 1 - |head|];
          }
        }
      }
    }
  }

  /** Cutting a string keeps the spacing of its capitals. */
  lemma SliceSpaced(s: string, a: nat, b: nat)
    requires a <= b <= |s| && CapitalsSpaced(s)
    ensures CapitalsSpaced(s[a..b])
  {
    var r := s[a..b];
    forall i | 0 < i < |r| && IsUpper(r[i])
      ensures r[i - 1] == ' '
    {
      assert r[i] == s[a + i] && r[i - 1] == s[a + i - 1];
    }
  }

  /**
   * A label has no underscore, and each of its capitals, except one that
   * starts it, follows a space.
   */
  lemma LabelSpec(key: string)
    ensures '_' !in Label(key)
    ensures CapitalsSpaced(Label(key))
  {
    var u := UnderscoresToSpaces(key);
    var s := SpaceBeforeCapitals(u);
    NoUnderscoreLeft(key);
    SpaceBeforeCapitalsSpec(u);
    var a := TrimSlice(s);
    SliceSpaced(s, a, a + |Trim(s)|);
    SliceKeeps(s, a, a + |Trim(s)|, '_');
  }

  lemma NoUnderscoreLeft(key: string)
    ensures '_' !in UnderscoresToSpaces(key)
  {
    var u := UnderscoresToSpaces(key);
    forall i | 0 <= i < |u|
      ensures u[i] != '_'
    {
    }
  }

  lemma SliceKeeps(s: string, a: nat, b: nat, c: char)
    requires a <= b <= |s| && c !in s
    ensures c !in s[a..b]
  {
    forall i | 0 <= i < b - a
      ensures s[a..b][i] != c
    {
      assert s[a..b][i] == s[a + i];
    }
  }

  /** Trimming keeps a contiguous part of the string. */
  lemma TrimSlice(s: string) returns (a: nat)
    ensures a + |Trim(s)| <= |s| && Trim(s) == s[a..a + |Trim(s)|]
  {
    var t := TrimStart(s);
    a := |s| - |t|;
    PrefixOfSuffix(s, a, TrimEnd(t));
  }

  lemma PrefixOfSuffix<T>(s: seq<T>, a: nat, r: seq<T>)
    requires a <= |s| && |r| <= |s| - a && r == s[a..][..|r|]
    ensures r == s[a..a + |r|]
  {
  }

  /** A name without underscores, capitals or white space is its own label. */
  lemma {:induction false} PlainLabel(key: string)
    requires forall i :: 0 <= i < |key| ==> key[i] != '_' && !IsUpper(key[i]) && !IsJsSpace(key[i])
    ensures Label(key) == key
  {
    assert UnderscoresToSpaces(key) == key;
    PlainSpacing(key);
    TrimWithoutSpace(key);
  }

  lemma {:induction false} PlainSpacing(s: string)
    requires forall i :: 0 <= i < |s| ==> !IsUpper(s[i])
    ensures SpaceBeforeCapitals(s) == s
  {
    if s != [] {
      PlainSpacing(s[1..]);
      assert [s[0]] + s[1..] == s;
    }
  }

  /** Attribute names the remainder phase never shows. */
  predicate Internal(key: string) {
    key == "children" || key == "__rowNum__"
  }

  /** One iteration of the remainder phase. */
  function RemainderStep(labelOf: string -> string, attrs: Attributes, fields: seq<Field>, key: string): (r: seq<Field>) {
    var value := Lookup(attrs, key);
    if Shows(fields, value) || Internal(key) || !Present(value) then fields
    else fields + [Field(labelOf(key), value, FileSpreadsheet)]
  }

  /**
   * The remainder phase over `keys`, after the entries `fields`, naming an
   * entry by `labelOf` applied to its attribute name; the views use `Label`.
   */
  function Remainder(labelOf: string -> string, attrs: Attributes, fields: seq<Field>, keys: seq<string>): (r: seq<Field>) {
    if keys == [] then fields
    else RemainderStep(labelOf, attrs, Remainder(labelOf, attrs, fields, keys[..|keys| - 1]), keys[|keys| - 1])
  }

  /** One iteration either skips the name or appends its present, not yet shown value under its label. */
  lemma RemainderStepSpec(labelOf: string -> string, attrs: Attributes, fields: seq<Field>, key: string)
    ensures var r := RemainderStep(labelOf, attrs, fields, key);
            r == fields ||
            (r == fields + [Field(labelOf(key), Lookup(attrs, key), FileSpreadsheet)] &&
             Present(Lookup(attrs, key)) && !Internal(key) && !Shows(fields, Lookup(attrs, key)))
  {
  }

  /** The remainder phase only appends, at most one entry per name. */
  lemma {:induction false} RemainderGrows(labelOf: string -> string, attrs: Attributes, fields: seq<Field>, keys: seq<string>)
    ensures var r := Remainder(labelOf, attrs, fields, keys);
            |fields| <= |r| <= |fields| + |keys| && r[..|fields|] == fields
  {
    if keys != [] {
      var p := Remainder(labelOf, attrs, fields, keys[..|keys| - 1]);
      RemainderGrows(labelOf, attrs, fields, keys[..|keys| - 1]);
      RemainderStepSpec(labelOf, attrs, p, keys[|keys| - 1]);
      var r := Remainder(labelOf, attrs, fields, keys);
      assert r[..|p|] == p;
      PrefixOfPrefix(fields, p, r);
    }
  }

  lemma PrefixOfPrefix<T>(f: seq<T>, p: seq<T>, r: seq<T>)
    requires |f| <= |p| <= |r| && p[..|f|] == f && r[..|p|] == p
    ensures r[..|f|] == f
  {
    assert r[..|f|] == r[..|p|][..|f|];
  }

  /**
   * The entry at `j` of `r` holds the present value of a name of `keys` that
   * is not internal, under that name's label, and its value differs from the
   * value of every earlier entry.
   */
  ghost predicate NewEntry(labelOf: string -> string, attrs: Attributes, keys: seq<string>, r: seq<Field>, j: nat)
    requires j < |r|
  {
    Present(r[j].value) && r[j].icon == FileSpreadsheet &&
    (exists k :: k in keys && !Internal(k) && r[j].caption == labelOf(k) && r[j].value == Lookup(attrs, k)) &&
    !Shows(r[..j], r[j].value)
  }

  lemma NewEntryExtends(labelOf: string -> string, attrs: Attributes, keys: seq<string>, p: seq<Field>, r: seq<Field>, j: nat)
    requires keys != [] && j < |p| <= |r| && r[..|p|] == p && NewEntry(labelOf, attrs, keys[..|keys| - 1], p, j)
    ensures NewEntry(labelOf, attrs, keys, r, j)
  {
    assert r[..j] == p[..j] && r[j] == p[j] by {
      assert r[..j] == r[..|p|][..j];
      assert r[j] == r[..|p|][j];
    }
    var k :| k in keys[..|keys| - 1] && !Internal(k) && p[j].caption == labelOf(k) && p[j].value == Lookup(attrs, k);
    assert k in keys;
  }

  lemma NewEntryLast(labelOf: string -> string, attrs: Attributes, keys: seq<string>, p: seq<Field>, key: string)
    requires key in keys && Present(Lookup(attrs, key)) && !Internal(key) && !Shows(p, Lookup(attrs, key))
    ensures NewEntry(labelOf, attrs, keys, p + [Field(labelOf(key), Lookup(attrs, key), FileSpreadsheet)], |p|)
  {
    var r := p + [Field(labelOf(key), Lookup(attrs, key), FileSpreadsheet)];
    assert r[..|p|] == p;
  }

  /** Every entry the remainder phase appends is a `NewEntry`. */
  lemma {:induction false} RemainderSpec(labelOf: string -> string, attrs: Attributes, fields: seq<Field>, keys: seq<string>)
    ensures forall j :: |fields| <= j < |Remainder(labelOf, attrs, fields, keys)| ==>
              NewEntry(labelOf, attrs, keys, Remainder(labelOf, attrs, fields, keys), j)
  {
    if keys != [] {
      var key := keys[|keys| - 1];
      RemainderSpec(labelOf, attrs, fields, keys[..|keys| - 1]);
      var p := Remainder(labelOf, attrs, fields, keys[..|keys| - 1]);
      var r := Remainder(labelOf, attrs, fields, keys);
      assert r == RemainderStep(labelOf, attrs, p, key);
      RemainderStepSpec(labelOf, attrs, p, key);
      assert |p| <= |r| && r[..|p|] == p;
      forall j | |fields| <= j < |r|
        ensures NewEntry(labelOf, attrs, keys, r, j)
      {
        if j < |p| {
          NewEntryExtends(labelOf, attrs, keys, p, r, j);
        } else {
          NewEntryLast(labelOf, attrs, keys, p, key);
        }
      }
    } else {
      assert Remainder(labelOf, attrs, fields, keys) == fields;
    }
  }

  /** Every present value of a name that is not internal is shown once the remainder phase is over. */
  lemma {:induction false} RemainderComplete(labelOf: string -> string, attrs: Attributes, fields: seq<Field>, keys: seq<string>, k: string)
    requires k in keys && !Internal(k) && Present(Lookup(attrs, k))
    ensures Shows(Remainder(labelOf, attrs, fields, keys), Lookup(attrs, k))
  {
    var init := keys[..|keys| - 1];
    var key := keys[|keys| - 1];
    var p := Remainder(labelOf, attrs, fields, init);
    RemainderStepSpec(labelOf, attrs, p, key);
    var r := Remainder(labelOf, attrs, fields, keys);
    if k == key {
      if !Shows(p, Lookup(attrs, k)) {
        assert r[|p|].value == Lookup(attrs, k);
      }
    }
    if Shows(p, Lookup(attrs, k)) {
      var i :| 0 <= i < |p| && p[i].value == Lookup(attrs, k);
      assert r[..|p|] == p && r[i] == p[i];
    } else if k != key {
      assert k in init;
      RemainderComplete(labelOf, attrs, fields, init, k);
    }
  }

  // ---------------------------------------------------------------- the whole list

  /** `getAllAttributeValues(attributes)` with the table `groups`; `None` stands for a missing `attributes`. */
  function AttributeFieldsOf(groups: seq<Group>, attributes: Option<Attributes>): (r: seq<Field>) {
    match attributes
    case None => []
    case Some(attrs) => Remainder(Label, attrs, Mapped(attrs, groups), Keys(EnumOrder(attrs)))
  }

  /** Both phases together, for any labelling of the remaining names. */
  lemma {:induction false} PhasesSpec(labelOf: string -> string, groups: seq<Group>, attrs: Attributes, k: string)
    ensures var r := Remainder(labelOf, attrs, Mapped(attrs, groups), Keys(EnumOrder(attrs)));
            |r| <= |groups| + |attrs| && forall f :: f in r ==> Present(f.value)
    ensures k in Keys(attrs) && !Internal(k) && Present(Lookup(attrs, k)) ==>
              Shows(Remainder(labelOf, attrs, Mapped(attrs, groups), Keys(EnumOrder(attrs))), Lookup(attrs, k))
  {
    var m := Mapped(attrs, groups);
    var keys := Keys(EnumOrder(attrs));
    MappedSpec(attrs, groups);
    MappedPresent(attrs, groups);
    RemainderGrows(labelOf, attrs, m, keys);
    RemainderSpec(labelOf, attrs, m, keys);
    var r := Remainder(labelOf, attrs, m, keys);
    forall f | f in r
      ensures Present(f.value)
    {
      var j :| 0 <= j < |r| && r[j] == f;
      if j < |m| {
        assert r[j] == r[..|m|][j];
      } else {
        assert NewEntry(labelOf, attrs, keys, r, j);
      }
    }
    EnumKeys(attrs, k);
    if k in Keys(attrs) && !Internal(k) && Present(Lookup(attrs, k)) {
      RemainderComplete(labelOf, attrs, m, keys, k);
    }
  }

  /**
   * The list without attributes is empty. Otherwise it is at most one entry
   * per group followed by at most one entry per attribute; every entry holds a
   * present value; and every present value of an attribute that is not
   * internal appears in it.
   */
  lemma AttributeFieldsSpec(groups: seq<Group>, attributes: Option<Attributes>, k: string)
    ensures attributes.None? ==> AttributeFieldsOf(groups, attributes) == []
    ensures attributes.Some? ==> |AttributeFieldsOf(groups, attributes)| <= |groups| + |attributes.value|
    ensures forall f :: f in AttributeFieldsOf(groups, attributes) ==> Present(f.value)
    ensures attributes.Some? && k in Keys(attributes.value) && !Internal(k) && Present(Lookup(attributes.value, k)) ==>
              Shows(AttributeFieldsOf(groups, attributes), Lookup(attributes.value, k))
  {
    if attributes.Some? {
      PhasesSpec(Label, groups, attributes.value, k);
    }
  }

  // ---------------------------------------------------------------- the loops

  /** The inner `for (const key of mapping.keys)` loop with its `break`. */
  method FindPresent(attrs: Attributes, keys: seq<string>) returns (found: Option<Cell>)
    ensures found == FirstPresent(attrs, keys)
  {
    found := None;
    var j := 0;
    while j < |keys|
      invariant 0 <= j <= |keys|
      invariant FirstPresent(attrs, keys) == FirstPresent(attrs, keys[j..])
    {
      var value := Lookup(attrs, keys[j]);
      if value != Undef && value != Null && value != Str("") {
        found := Some(value);
        return;
      }
      assert keys[j..][1..] == keys[j + 1..];
      j := j + 1;
    }
  }

  /** The first `forEach`, over the table. */
  method MapGroups(attrs: Attributes, groups: seq<Group>) returns (fields: seq<Field>)
    ensures fields == Mapped(attrs, groups)
  {
    fields := [];
    var g := 0;
    while g < |groups|
      invariant 0 <= g <= |groups|
      invariant fields == Mapped(attrs, groups[..g])
    {
      var found := FindPresent(attrs, groups[g].keys);
      if found.Some? {
        fields := fields + [Field(groups[g].caption, found.value, groups[g].icon)];
      }
      assert groups[..g + 1][..g] == groups[..g];
      g := g + 1;
    }
    assert groups[..|groups|] == groups;
  }

  /** `fields.some(f => f.value === value)`. */
  method AnyShows(fields: seq<Field>, value: Cell) returns (shown: bool)
    ensures shown == Shows(fields, value)
  {
    shown := false;
    var i := 0;
    while i < |fields| && !shown
      invariant 0 <= i <= |fields|
      invariant shown <==> exists m :: 0 <= m < i && fields[m].value == value
    {
      shown := fields[i].value == value;
      i := i + 1;
    }
  }

  /** The second `forEach`, over `keys`, appending to `fields0`. */
  method AddRemaining(attrs: Attributes, fields0: seq<Field>, keys: seq<string>) returns (fields: seq<Field>)
    ensures fields == Remainder(Label, attrs, fields0, keys)
  {
    fields := fields0;
    var n := 0;
    while n < |keys|
      invariant 0 <= n <= |keys|
      invariant fields == Remainder(Label, attrs, fields0, keys[..n])
    {
      var key := keys[n];
      var value := Lookup(attrs, key);
      var shown := AnyShows(fields, value);
      assert keys[..n + 1][..n] == keys[..n];
      if !(shown || Internal(key)) && Present(value) {
        fields := fields + [Field(Label(key), value, FileSpreadsheet)];
      }
      n := n + 1;
    }
    assert keys[..|keys|] == keys;
  }

  /** `getAllAttributeValues(attributes)`. */
  method AttributeFields(groups: seq<Group>, attributes: Option<Attributes>) returns (fields: seq<Field>)
    ensures fields == AttributeFieldsOf(groups, attributes)
  {
    if attributes.None? {
      return [];
    }
    var attrs := attributes.value;
    var mapped := MapGroups(attrs, groups);
    fields := AddRemaining(attrs, mapped, Keys(EnumOrder(attrs)));
  }
}
