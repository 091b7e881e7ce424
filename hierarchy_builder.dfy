/**
 * `buildTree`: spreadsheet rows to an account hierarchy under a synthetic
 * "Transaction Flow" root.
 *
 * Pass 1 builds the account index (last row wins per printed id) and the
 * per-layer id lists. Pass 2 wires parent-child links. Root selection falls
 * back from "not anybody's child" to "the lowest layer" to "every account".
 *
 * A node's `children` are kept as the ids of its child accounts. The source
 * pushes the index's node objects, which are fully built by then, so an id
 * designates exactly the object the source shares.
 *
 * Every definition takes the table of candidate headers as a parameter `h`;
 * `SourceHeaders` is the table the application uses, and the lemmas hold for
 * any table.
 */
module HierarchyBuilder {
  import opened Wrappers
  import opened JsValues
  import opened JsObject
  import opened ColumnResolver
  import opened NumericSort

  /** The candidate header lists of each field, in priority order. */
  datatype Headers = Headers(
    account: seq<string>, layer: seq<string>, serial: seq<string>, acknowledgement: seq<string>,
    ifsc: seq<string>, state: seq<string>, district: seq<string>, policeStation: seq<string>,
    designation: seq<string>, mobile: seq<string>, email: seq<string>,
    linkAccount: seq<string>, parent: seq<string>)

  /** The header table of `buildTree`. Pass 2 reads the child id from three headers only. */
  const SourceHeaders: Headers := Headers(
    ["Account No", "AccountNo", "Account Number", "acc_no", "Acknowledgement N", "A/C No", "AC No"],
    ["Layer", "Level"],
    ["S.No", "SNo", "Serial No", "S No", "SerialNumber"],
    ["Acknowledgement N", "Acknowledgement", "AcknowledgementN"],
    ["IFSC Code", "IFSCCode", "IFSC"],
    ["State"],
    ["District"],
    ["police Station Name of Complain reported officer", "Police Station", "PS Name", "PoliceStation"],
    ["Designation"],
    ["Mobile Number", "MobileNumber", "Mobile", "Phone"],
    ["Email", "E-mail", "EmailID"],
    ["Account No", "AccountNo", "Account Number"],
    ["parent_acc_no", "ParentAccountNo", "Parent Account No", "Parent"])

  /** An account node: `name` is `String(accountNo)`; `children` are the ids of its child accounts. */
  datatype Account = Account(name: string, layer: int, attributes: Object<string, Cell>, children: seq<string>)

  /** `accountMap`: printed id to account node. */
  type Index = Object<string, Account>

  /** `layerMap`: layer number to the ids of the rows in that layer, in row order. */
  type LayerMap = Object<int, seq<string>>

  /**
   * The value `buildTree` returns: the `{name: "No Data", attributes: {}, children: []}`
   * sentinel, or the "Transaction Flow" root with its counts and root accounts.
   */
  datatype Tree =
    | NoData
    | Flow(index: Index, roots: seq<string>, totalAccounts: nat, totalLayers: nat)

  /** The resolved account id of a row (`null` when none of the headers holds one). */
  function RowId(h: Headers, row: Row): (r: Cell) {
    Resolve(row, h.account)
  }

  /** The resolved layer of a row, `|| 0`. */
  function RowLayer(h: Headers, row: Row): (r: Cell) {
    Or(Resolve(row, h.layer), Num(0))
  }

  /** `!accountNo` fails: the row names an account. */
  predicate HasId(h: Headers, row: Row) {
    Truthy(RowId(h, row))
  }

  /** The layer of a row that names an account converts to an integer: not NaN, no fraction. */
  predicate IntegralLayer(h: Headers, row: Row) {
    HasId(h, row) ==> ToNumber(RowLayer(h, row)).Integral?
  }

  predicate IntegralLayers(h: Headers, rows: seq<Row>) {
    forall i :: 0 <= i < |rows| ==> IntegralLayer(h, rows[i])
  }

  /** The position of the first row whose layer is not an integer, if there is one. */
  function FirstNonIntegralLayer(h: Headers, rows: seq<Row>): (r: Option<nat>)
    ensures r.None? <==> IntegralLayers(h, rows)
    ensures r.Some? ==> r.value < |rows| && !IntegralLayer(h, rows[r.value]) &&
                        forall i :: 0 <= i < r.value ==> IntegralLayer(h, rows[i])
  {
    FirstFailing(row => IntegralLayer(h, row), rows)
  }

  /** The canonical attribute fields, in the order the source writes them. */
  function Canonical(h: Headers, row: Row): (r: Object<string, Cell>) {
    [("accountNo", RowId(h, row)),
     ("layer", RowLayer(h, row)),
     ("sNo", Resolve(row, h.serial)),
     ("acknowledgementN", Resolve(row, h.acknowledgement)),
     ("ifscCode", Resolve(row, h.ifsc)),
     ("state", Resolve(row, h.state)),
     ("district", Resolve(row, h.district)),
     ("policeStation", Resolve(row, h.policeStation)),
     ("designation", Resolve(row, h.designation)),
     ("mobileNumber", Resolve(row, h.mobile)),
     ("email", Resolve(row, h.email))]
  }

  /** `nodeData`: the canonical fields followed by the spread of the raw row, and no children. */
  function MakeAccount(h: Headers, row: Row): (r: Account)
    requires HasId(h, row) && IntegralLayer(h, row)
  {
    Account(ToJsString(RowId(h, row)), ToNumber(RowLayer(h, row)).n, PutAll(Canonical(h, row), row), [])
  }

  /**
   * The node of a row has the printed id as its name and `Number(layer || 0)` as
   * its layer. An attribute reads the raw row's value when the row has that
   * header (the spread comes last and overrides a canonical field of the same
   * name), and the canonical field otherwise.
   */
  lemma MakeAccountFields(h: Headers, row: Row, k: string)
    requires HasId(h, row) && IntegralLayer(h, row)
    ensures MakeAccount(h, row).name == ToJsString(Resolve(row, h.account))
    ensures ToNumber(Or(Resolve(row, h.layer), Num(0))) == Integral(MakeAccount(h, row).layer)
    ensures MakeAccount(h, row).children == []
    ensures Get(MakeAccount(h, row).attributes, k) ==
              if k in Keys(row) then LastValue(row, k) else Get(Canonical(h, row), k)
  {
    PutAllGet(Canonical(h, row), row, k);
  }

  // ---------------------------------------------------------------- pass 1

  /** The node of one row: none when the row names no account. */
  function RowNode(h: Headers, row: Row): (r: Option<Account>)
    requires IntegralLayer(h, row)
  {
    if HasId(h, row) then Some(MakeAccount(h, row)) else None
  }

  /** The row nodes, row by row. */
  function RowNodes(h: Headers, rows: seq<Row>): (r: seq<Option<Account>>)
    requires IntegralLayers(h, rows)
    ensures |r| == |rows| && forall i :: 0 <= i < |rows| ==> r[i] == RowNode(h, rows[i])
  {
    seq(|rows|, i requires 0 <= i < |rows| => RowNode(h, rows[i]))
  }

  /** The nodes pass 1 builds, one per row that names an account, in row order. */
  function Accounts(h: Headers, rows: seq<Row>): (r: seq<Account>)
    requires IntegralLayers(h, rows)
  {
    Somes(RowNodes(h, rows))
  }

  /** Every row that names an account contributes its node. */
  lemma AccountOfRow(h: Headers, rows: seq<Row>, i: nat)
    requires IntegralLayers(h, rows) && i < |rows| && HasId(h, rows[i])
    ensures MakeAccount(h, rows[i]) in Accounts(h, rows)
  {
    SomesMembers(RowNodes(h, rows), MakeAccount(h, rows[i]));
  }

  /** Every node of pass 1 comes from a row that names an account. */
  lemma RowOfAccount(h: Headers, rows: seq<Row>, a: Account)
    requires IntegralLayers(h, rows) && a in Accounts(h, rows)
    ensures exists i :: 0 <= i < |rows| && HasId(h, rows[i]) && MakeAccount(h, rows[i]) == a
  {
    var os := RowNodes(h, rows);
    SomesMembers(os, a);
    var i :| 0 <= i < |os| && os[i] == Some(a);
    assert HasId(h, rows[i]) && MakeAccount(h, rows[i]) == a;
  }

  datatype Pass1State = Pass1State(index: Index, layerMap: LayerMap)

  /** `accountMap[name] = node`, then `layerMap[layer].push(name)`. */
  function AddAccount(s: Pass1State, a: Account): (r: Pass1State) {
    Pass1State(Put(s.index, a.name, a),
               Put(s.layerMap, a.layer, Get(s.layerMap, a.layer).GetOr([]) + [a.name]))
  }

  /** The dictionaries after adding the nodes `accts` in order. */
  function Collect(accts: seq<Account>): (r: Pass1State) {
    if accts == [] then Pass1State([], [])
    else AddAccount(Collect(accts[..|accts| - 1]), accts[|accts| - 1])
  }

  lemma CollectSnoc(accts: seq<Account>, a: Account)
    ensures Collect(accts + [a]) == AddAccount(Collect(accts), a)
  {
    assert (accts + [a])[..|accts|] == accts;
  }

  /** Reference definition: the last node in `accts` named `k`. */
  function LastNamed(accts: seq<Account>, k: string): (r: Option<Account>)
    ensures r.None? <==> forall i :: 0 <= i < |accts| ==> accts[i].name != k
    ensures r.Some? ==> r.value in accts && r.value.name == k
  {
    if accts == [] then None
    else if accts[|accts| - 1].name == k then Some(accts[|accts| - 1])
    else
      var r := LastNamed(accts[..|accts| - 1], k);
      assert forall i :: 0 <= i < |accts| - 1 ==> accts[..|accts| - 1][i] == accts[i];
      r
  }

  /** Reference definition: the names of the nodes of layer `l`, in order, repetitions kept. */
  function NamesInLayer(accts: seq<Account>, l: int): (r: seq<string>)
    ensures forall x :: x in r ==> exists i :: 0 <= i < |accts| && accts[i].name == x
    ensures r == [] <==> forall i :: 0 <= i < |accts| ==> accts[i].layer != l
  {
    if accts == [] then []
    else
      var init := accts[..|accts| - 1];
      var a := accts[|accts| - 1];
      var r := NamesInLayer(init, l) + (if a.layer == l then [a.name] else []);
      assert forall i :: 0 <= i < |init| ==> init[i] == accts[i];
      r
  }

  /** The index holds, for each name, the node added last under that name. */
  lemma {:induction false} CollectIndex(accts: seq<Account>, k: string)
    ensures Get(Collect(accts).index, k) == LastNamed(accts, k)
  {
    if accts != [] {
      var init := accts[..|accts| - 1];
      var a := accts[|accts| - 1];
      CollectIndex(init, k);
      PutGet(Collect(init).index, a.name, a, k);
    }
  }

  /** Each layer entry lists the names of that layer in order, repetitions kept; a layer without nodes has no entry. */
  lemma {:induction false} CollectLayerMap(accts: seq<Account>, l: int)
    ensures Get(Collect(accts).layerMap, l) == if NamesInLayer(accts, l) == [] then None else Some(NamesInLayer(accts, l))
  {
    if accts != [] {
      var init := accts[..|accts| - 1];
      var a := accts[|accts| - 1];
      CollectLayerMap(init, l);
      var s := Collect(init);
      var ids := Get(s.layerMap, a.layer).GetOr([]);
      PutGet(s.layerMap, a.layer, ids + [a.name], l);
      if a.layer == l {
        assert ids == NamesInLayer(init, l);
        assert NamesInLayer(accts, l) == ids + [a.name];
      } else {
        assert NamesInLayer(accts, l) == NamesInLayer(init, l);
      }
    }
  }

  /** Every node of the index is stored under its own name. */
  predicate Named(index: Index) {
    forall j :: 0 <= j < |index| ==> index[j].1.name == index[j].0
  }

  /** Storing a node under its own name keeps every node under its own name. */
  lemma PutNamed(index: Index, a: Account)
    requires Named(index)
    ensures Named(Put(index, a.name, a))
  {
    var r := Put(index, a.name, a);
    forall j | 0 <= j < |r| ensures r[j].1.name == r[j].0 {
      PutEntry(index, a.name, a, j);
    }
  }

  /** Both dictionaries are free of repeated keys, and every node is stored under its own name. */
  lemma {:induction false} CollectWellFormed(accts: seq<Account>)
    ensures WellFormed(Collect(accts).index) && WellFormed(Collect(accts).layerMap)
    ensures Named(Collect(accts).index)
  {
    if accts != [] {
      var init := accts[..|accts| - 1];
      var a := accts[|accts| - 1];
      CollectWellFormed(init);
      var s := Collect(init);
      PutWellFormed(s.index, a.name, a);
      PutWellFormed(s.layerMap, a.layer, Get(s.layerMap, a.layer).GetOr([]) + [a.name]);
      PutNamed(s.index, a);
    }
  }

  /** The index has an entry for exactly the names of the nodes. */
  lemma CollectKeys(accts: seq<Account>, k: string)
    ensures k in Keys(Collect(accts).index) <==> exists i :: 0 <= i < |accts| && accts[i].name == k
  {
    CollectIndex(accts, k);
    GetNone(Collect(accts).index, k);
  }

  /** The layer dictionary has an entry for exactly the layers of the nodes. */
  lemma CollectLayerKeys(accts: seq<Account>, l: int)
    ensures l in Keys(Collect(accts).layerMap) <==> exists i :: 0 <= i < |accts| && accts[i].layer == l
  {
    CollectLayerMap(accts, l);
    GetNone(Collect(accts).layerMap, l);
  }

  /** The state after the first pass over `rows`. */
  function Pass1(h: Headers, rows: seq<Row>): (r: Pass1State)
    requires IntegralLayers(h, rows)
  {
    Collect(Accounts(h, rows))
  }

  // ---------------------------------------------------------------- pass 2

  /** `String(value || "")` of a resolved id. */
  function AsIdString(c: Cell): (r: string) {
    ToJsString(Or(c, Str("")))
  }

  /** A link request of a row: the child id (from the three account headers) and the parent id. */
  datatype LinkRequest = LinkRequest(child: string, parent: string)

  function RowLink(h: Headers, row: Row): (r: LinkRequest) {
    LinkRequest(AsIdString(Resolve(row, h.linkAccount)), AsIdString(Resolve(row, h.parent)))
  }

  /** The link requests of the rows, in row order. */
  function LinkRequests(h: Headers, rows: seq<Row>): (r: seq<LinkRequest>)
    ensures |r| == |rows| && forall i :: 0 <= i < |rows| ==> r[i] == RowLink(h, rows[i])
  {
    if rows == [] then []
    else
      var init := rows[..|rows| - 1];
      var r := LinkRequests(h, init) + [RowLink(h, rows[|rows| - 1])];
      assert forall i :: 0 <= i < |init| ==> init[i] == rows[i];
      r
  }

  /** The guard of pass 2: both ids non-empty, not `"null"`, and both in the index. */
  predicate Links(index: Index, q: LinkRequest) {
    q.child != "" && q.child != "null" && q.parent != "" && q.parent != "null" &&
    q.parent in Keys(index) && q.child in Keys(index)
  }

  /** `accountMap[parent].children.push(accountMap[child])` when the guard holds. */
  function Link(index: Index, q: LinkRequest): (r: Index)
    ensures Keys(r) == Keys(index)
  {
    if Links(index, q) then
      GetNone(index, q.parent);
      var p := Get(index, q.parent).value;
      PutKeys(index, q.parent, p.(children := p.children + [q.child]));
      Put(index, q.parent, p.(children := p.children + [q.child]))
    else index
  }

  /** The index after pass 2 has handled the requests `qs` in order. */
  function Wire(index: Index, qs: seq<LinkRequest>): (r: Index)
    ensures Keys(r) == Keys(index)
  {
    if qs == [] then index else Link(Wire(index, qs[..|qs| - 1]), qs[|qs| - 1])
  }

  /** Reference definition: the ids that the requests `qs` append to `k`'s children, in order. */
  function AddedChildren(index: Index, qs: seq<LinkRequest>, k: string): (r: seq<string>) {
    if qs == [] then []
    else
      var q := qs[|qs| - 1];
      AddedChildren(index, qs[..|qs| - 1], k) + (if Links(index, q) && q.parent == k then [q.child] else [])
  }

  /** A looked-up node with `extra` appended to its children. */
  function WithChildren(o: Option<Account>, extra: seq<string>): (r: Option<Account>)
    ensures r.None? <==> o.None?
    ensures r.Some? ==> r.value.children == o.value.children + extra && r.value.(children := o.value.children) == o.value
  {
    match o
    case None => None
    case Some(a) => Some(a.(children := a.children + extra))
  }

  lemma WithChildrenAppend(o: Option<Account>, x: seq<string>, y: seq<string>)
    ensures WithChildren(WithChildren(o, x), y) == WithChildren(o, x + y)
  {
    if o.Some? {
      assert o.value.children + x + y == o.value.children + (x + y);
    }
  }

  lemma WithChildrenNone(o: Option<Account>)
    ensures WithChildren(o, []) == o
  {
    if o.Some? {
      assert o.value.children + [] == o.value.children;
    }
  }

  /** One request appends its child to its parent, when the guard holds, and changes nothing else. */
  lemma LinkGet(index: Index, q: LinkRequest, k: string)
    ensures Get(Link(index, q), k) == WithChildren(Get(index, k), if Links(index, q) && q.parent == k then [q.child] else [])
  {
    if Links(index, q) {
      GetNone(index, q.parent);
      var p := Get(index, q.parent).value;
      PutGet(index, q.parent, p.(children := p.children + [q.child]), k);
    }
    if !(Links(index, q) && q.parent == k) {
      WithChildrenNone(Get(index, k));
    }
  }

  /**
   * Pass 2 only appends children: every entry keeps its name, layer and
   * attributes, and its children grow by the ids of the accepted requests that
   * name it as parent, in row order and with repetitions.
   */
  lemma {:induction false} WireEffect(index: Index, qs: seq<LinkRequest>, k: string)
    ensures Get(Wire(index, qs), k) == WithChildren(Get(index, k), AddedChildren(index, qs, k))
  {
    if qs == [] {
      WithChildrenNone(Get(index, k));
    } else {
      var init := qs[..|qs| - 1];
      var q := qs[|qs| - 1];
      WireEffect(index, init, k);
      var w := Wire(index, init);
      assert Links(w, q) == Links(index, q);
      LinkGet(w, q, k);
      WithChildrenAppend(Get(index, k), AddedChildren(index, init, k), if Links(index, q) && q.parent == k then [q.child] else []);
    }
  }

  /** Pass 2 keeps the index free of repeated keys and every node under its own name. */
  lemma {:induction false} WireWellFormed(index: Index, qs: seq<LinkRequest>)
    requires WellFormed(index) && Named(index)
    ensures WellFormed(Wire(index, qs)) && Named(Wire(index, qs))
  {
    if qs != [] {
      var init := qs[..|qs| - 1];
      var q := qs[|qs| - 1];
      WireWellFormed(index, init);
      var w := Wire(index, init);
      if Links(w, q) {
        GetNone(w, q.parent);
        var p := Get(w, q.parent).value;
        var i := GetFound(w, q.parent);
        PutWellFormed(w, q.parent, p.(children := p.children + [q.child]));
        PutNamed(w, p.(children := p.children + [q.child]));
      }
    }
  }

  // ---------------------------------------------------------------- roots

  /** The elements of a list, as a set. */
  function ElementSet(s: seq<string>): (r: set<string>)
    ensures forall x :: x in r <==> x in s
  {
    set i | 0 <= i < |s| :: s[i]
  }

  /** `childrenSet`: the ids listed as a child anywhere in the index. */
  function ChildSet(index: Index): (r: set<string>) {
    if index == [] then {}
    else ChildSet(index[..|index| - 1]) + ElementSet(index[|index| - 1].1.children)
  }

  lemma {:induction false} ChildSetMembers(index: Index, c: string)
    ensures c in ChildSet(index) <==> exists j :: 0 <= j < |index| && c in index[j].1.children
  {
    if index != [] {
      var init := index[..|index| - 1];
      ChildSetMembers(init, c);
      assert forall j :: 0 <= j < |init| ==> init[j] == index[j];
    }
  }

  /** The ids of the index entries whose node name is not in `cs`, in index order. */
  function NotChildren(index: Index, cs: set<string>): (r: seq<string>) {
    if index == [] then []
    else
      var e := index[|index| - 1];
      NotChildren(index[..|index| - 1], cs) + (if e.1.name !in cs then [e.0] else [])
  }

  /** `a` can be obtained from `b` by deleting elements. */
  predicate SubsequenceOf<T(==)>(a: seq<T>, b: seq<T>) {
    if b == [] then a == []
    else SubsequenceOf(a, b[..|b| - 1]) ||
         (a != [] && a[|a| - 1] == b[|b| - 1] && SubsequenceOf(a[..|a| - 1], b[..|b| - 1]))
  }

  lemma SubsequenceOfSnoc<T>(a: seq<T>, b: seq<T>, x: T)
    requires SubsequenceOf(a, b)
    ensures SubsequenceOf(a, b + [x]) && SubsequenceOf(a + [x], b + [x])
  {
    assert (b + [x])[..|b|] == b;
    assert (a + [x])[..|a|] == a;
  }

  /** The primary roots are the index's ids whose node is nobody's child. */
  lemma {:induction false} NotChildrenMembers(index: Index, cs: set<string>, k: string)
    requires Named(index)
    ensures k in NotChildren(index, cs) <==> k in Keys(index) && k !in cs
  {
    if index != [] {
      var init := index[..|index| - 1];
      var e := index[|index| - 1];
      assert forall j :: 0 <= j < |init| ==> init[j] == index[j];
      NotChildrenMembers(init, cs, k);
      KeysSnoc(index);
      assert e.1.name == e.0;
    }
  }

  /** The primary roots come in index order. */
  lemma {:induction false} NotChildrenInOrder(index: Index, cs: set<string>)
    ensures SubsequenceOf(NotChildren(index, cs), Keys(index))
  {
    if index != [] {
      var init := index[..|index| - 1];
      var e := index[|index| - 1];
      NotChildrenInOrder(init, cs);
      var a := NotChildren(init, cs);
      KeysSnoc(index);
      SubsequenceOfSnoc(a, Keys(init), e.0);
      if e.1.name !in cs {
        assert NotChildren(index, cs) == a + [e.0];
      } else {
        assert NotChildren(index, cs) == a;
      }
    }
  }

  /** Enumerating the index keeps every entry's node named by its key. */
  lemma EnumNamed(index: Index)
    requires Named(index)
    ensures Named(EnumOrder(index))
  {
    var e := EnumOrder(index);
    forall j | 0 <= j < |e| ensures e[j].1.name == e[j].0 {
      assert e[j] in index;
    }
  }

  /** Enumeration order does not change the set of listed children. */
  lemma ChildSetEnum(index: Index)
    ensures ChildSet(EnumOrder(index)) == ChildSet(index)
  {
    var e := EnumOrder(index);
    forall c ensures c in ChildSet(e) <==> c in ChildSet(index) {
      ChildSetMembers(e, c);
      ChildSetMembers(index, c);
      if exists j :: 0 <= j < |index| && c in index[j].1.children {
        var j :| 0 <= j < |index| && c in index[j].1.children;
        assert index[j] in e;
        var i :| 0 <= i < |e| && e[i] == index[j];
      }
      if exists i :: 0 <= i < |e| && c in e[i].1.children {
        var i :| 0 <= i < |e| && c in e[i].1.children;
        assert e[i] in index;
        var j :| 0 <= j < |index| && index[j] == e[i];
      }
    }
  }

  /** The ids of `ids` that the index knows (`if (accountMap[accountNo]) roots.push(...)`). */
  function KnownIds(index: Index, ids: seq<string>): (r: seq<string>) {
    if ids == [] then []
    else KnownIds(index, ids[..|ids| - 1]) + (if Get(index, ids[|ids| - 1]).Some? then [ids[|ids| - 1]] else [])
  }

  lemma {:induction false} KnownIdsAll(index: Index, ids: seq<string>)
    requires forall j :: 0 <= j < |ids| ==> Get(index, ids[j]).Some?
    ensures KnownIds(index, ids) == ids
  {
    if ids != [] {
      var init := ids[..|ids| - 1];
      var x := ids[|ids| - 1];
      assert Get(index, x).Some?;
      forall j | 0 <= j < |init| ensures Get(index, init[j]).Some? {
        assert init[j] == ids[j];
      }
      KnownIdsAll(index, init);
      assert KnownIds(index, ids) == init + [x];
      assert init + [x] == ids;
    }
  }

  /** `layers`: the sorted numeric keys of `layerMap`. */
  function Layers(layerMap: LayerMap): (r: seq<int>) {
    Sort(Keys(layerMap))
  }

  /** The not-a-child roots; if there are none, the known ids of the lowest layer; if still none, every account. */
  function RootsOf(index: Index, layerMap: LayerMap): (r: seq<string>) {
    var e := EnumOrder(index);
    var primary := NotChildren(e, ChildSet(e));
    var layers := Layers(layerMap);
    var viaLayers := if primary == [] && layers != [] then KnownIds(index, Get(layerMap, layers[0]).GetOr([])) else primary;
    if viaLayers == [] then Keys(e) else viaLayers
  }

  /** The "Transaction Flow" root built from the nodes of pass 1 and the link requests of pass 2. */
  function FlowOf(accts: seq<Account>, qs: seq<LinkRequest>): (r: Tree) {
    var s := Collect(accts);
    var index := Wire(s.index, qs);
    Flow(index, RootsOf(index, s.layerMap), |Keys(s.index)|, |Layers(s.layerMap)|)
  }

  /** What `buildTree(data)` returns; `None` stands for a missing `data`. */
  function TreeOf(h: Headers, data: Option<seq<Row>>): (r: Tree)
    requires data.Some? ==> IntegralLayers(h, data.value)
  {
    if data.None? || data.value == [] then NoData
    else FlowOf(Accounts(h, data.value), LinkRequests(h, data.value))
  }

  /**
   * The result of `buildTree(data)`, or the position of the first row whose
   * layer the model cannot place because `Number(layer)` is not an integer.
   */
  datatype Outcome = Built(tree: Tree) | NonIntegerLayer(row: nat)

  /**
   * `TreeOf` where every layer is an integer; otherwise the first row that
   * breaks this, a row that names an account and whose layer is NaN, a
   * fraction or an infinity.
   */
  function OutcomeOf(h: Headers, data: Option<seq<Row>>): (r: Outcome)
    ensures r.Built? <==> data.None? || IntegralLayers(h, data.value)
    ensures r.Built? ==> r.tree == TreeOf(h, data)
    ensures r.NonIntegerLayer? ==>
              data.Some? && r.row < |data.value| &&
              HasId(h, data.value[r.row]) && !ToNumber(RowLayer(h, data.value[r.row])).Integral? &&
              forall i :: 0 <= i < r.row ==> IntegralLayer(h, data.value[i])
  {
    if data.None? then Built(NoData)
    else
      match FirstNonIntegralLayer(h, data.value)
      case Some(i) => NonIntegerLayer(i)
      case None => Built(TreeOf(h, data))
  }

  // ---------------------------------------------------------------- properties of the result

  /** Missing or empty input, and only that, yields the "No Data" sentinel. */
  lemma NoDataExactlyOnEmptyInput(h: Headers, data: Option<seq<Row>>)
    requires data.Some? ==> IntegralLayers(h, data.value)
    ensures TreeOf(h, data).NoData? <==> data.None? || data.value == []
  {
  }

  /**
   * The final index has one entry per distinct printed id; the entry is the node
   * added last under that id, with the children pass 2 appended to it.
   */
  lemma IndexEntry(accts: seq<Account>, qs: seq<LinkRequest>, k: string)
    ensures Get(FlowOf(accts, qs).index, k) == WithChildren(LastNamed(accts, k), AddedChildren(Collect(accts).index, qs, k))
  {
    CollectIndex(accts, k);
    WireEffect(Collect(accts).index, qs, k);
  }

  /** `totalAccounts` is the number of distinct printed ids among the nodes of pass 1. */
  lemma TotalAccountsCountsIds(accts: seq<Account>, qs: seq<LinkRequest>)
    ensures FlowOf(accts, qs).totalAccounts == |set a | a in accts :: a.name|
  {
    var idx := Collect(accts).index;
    CollectWellFormed(accts);
    KeyCount(idx);
    forall k ensures k in Keys(idx) <==> k in (set a | a in accts :: a.name) {
      CollectKeys(accts, k);
    }
    assert (set k | k in Keys(idx)) == (set a | a in accts :: a.name);
  }

  /**
   * `totalLayers` is the number of distinct layer numbers among the nodes of
   * pass 1, overwritten nodes included.
   */
  lemma TotalLayersCountsLayers(accts: seq<Account>, qs: seq<LinkRequest>)
    ensures FlowOf(accts, qs).totalLayers == |set a | a in accts :: a.layer|
  {
    var lm := Collect(accts).layerMap;
    CollectWellFormed(accts);
    KeyCount(lm);
    forall l ensures l in Keys(lm) <==> l in (set a | a in accts :: a.layer) {
      CollectLayerKeys(accts, l);
    }
    assert (set k | k in Keys(lm)) == (set a | a in accts :: a.layer);
    assert |Layers(lm)| == |Keys(lm)| by {
      assert |multiset(Layers(lm))| == |multiset(Keys(lm))|;
    }
  }

  /** The lowest layer of a non-empty pass 1 lists names the index knows, and at least one. */
  lemma LowestLayer(accts: seq<Account>)
    requires accts != []
    ensures var s := Collect(accts);
            Layers(s.layerMap) != [] && Get(s.layerMap, Layers(s.layerMap)[0]).Some?
    ensures var s := Collect(accts);
            var ids := Get(s.layerMap, Layers(s.layerMap)[0]).value;
            ids != [] && forall x :: x in ids ==> x in Keys(s.index)
  {
    var s := Collect(accts);
    var l := accts[0].layer;
    CollectLayerKeys(accts, l);
    assert l in multiset(Keys(s.layerMap));
    var low := Layers(s.layerMap)[0];
    assert low in multiset(Keys(s.layerMap));
    GetNone(s.layerMap, low);
    CollectLayerMap(accts, low);
    var ids := Get(s.layerMap, low).value;
    forall x | x in ids ensures x in Keys(s.index) {
      CollectKeys(accts, x);
    }
  }

  /**
   * Root selection: the non-child accounts in enumeration order when there is one;
   * otherwise the lowest layer's id list (each of its ids is known); the
   * all-accounts fallback only fires when pass 1 found no account, where it adds nothing.
   */
  lemma RootSelection(accts: seq<Account>, qs: seq<LinkRequest>)
    ensures var t := FlowOf(accts, qs);
            var lm := Collect(accts).layerMap;
            var e := EnumOrder(t.index);
            var primary := NotChildren(e, ChildSet(e));
            t.roots == if primary != [] then primary
                       else if accts != [] then Get(lm, Layers(lm)[0]).GetOr([])
                       else []
    ensures accts != [] ==> FlowOf(accts, qs).roots != []
  {
    var s := Collect(accts);
    var index := Wire(s.index, qs);
    if accts != [] {
      LowestLayer(accts);
      var low := Get(s.layerMap, Layers(s.layerMap)[0]).value;
      forall j | 0 <= j < |low|
        ensures Get(index, low[j]).Some?
      {
        GetNone(s.index, low[j]);
        WireEffect(s.index, qs, low[j]);
      }
      KnownIdsAll(index, low);
    }
  }

  /**
   * Every primary root is an account that no account lists as a child, every
   * such account is a root, and the roots come in enumeration order.
   */
  lemma PrimaryRoots(accts: seq<Account>, qs: seq<LinkRequest>, k: string)
    ensures var t := FlowOf(accts, qs);
            var e := EnumOrder(t.index);
            k in NotChildren(e, ChildSet(e)) <==>
              k in Keys(t.index) && forall j :: 0 <= j < |t.index| ==> k !in t.index[j].1.children
    ensures var t := FlowOf(accts, qs);
            var e := EnumOrder(t.index);
            SubsequenceOf(NotChildren(e, ChildSet(e)), Keys(e))
  {
    var t := FlowOf(accts, qs);
    var s := Collect(accts);
    var e := EnumOrder(t.index);
    CollectWellFormed(accts);
    WireWellFormed(s.index, qs);
    EnumNamed(t.index);
    NotChildrenMembers(e, ChildSet(e), k);
    NotChildrenInOrder(e, ChildSet(e));
    EnumKeys(t.index, k);
    ChildSetEnum(t.index);
    ChildSetMembers(t.index, k);
  }

  lemma {:induction false} AddedChildrenKnown(index: Index, qs: seq<LinkRequest>, k: string, c: string)
    requires c in AddedChildren(index, qs, k)
    ensures c in Keys(index)
  {
    var init := qs[..|qs| - 1];
    if c in AddedChildren(index, init, k) {
      AddedChildrenKnown(index, init, k, c);
    }
  }

  /**
   * After pass 2 every child id reads an account of the index, since the guard
   * admits only known ids and pass 1 builds nodes without children.
   */
  lemma ChildKnown(accts: seq<Account>, qs: seq<LinkRequest>, k: string, c: string)
    requires forall i :: 0 <= i < |accts| ==> accts[i].children == []
    requires Get(FlowOf(accts, qs).index, k).Some? && c in Get(FlowOf(accts, qs).index, k).value.children
    ensures c in Keys(FlowOf(accts, qs).index)
  {
    var s := Collect(accts);
    IndexEntry(accts, qs, k);
    var a := LastNamed(accts, k).value;
    assert a.children == [] by {
      var i :| 0 <= i < |accts| && accts[i] == a;
    }
    assert c in [] + AddedChildren(s.index, qs, k);
    AddedChildrenKnown(s.index, qs, k, c);
  }

  /** Every root id reads an account of the index. */
  lemma RootKnown(accts: seq<Account>, qs: seq<LinkRequest>, r: string)
    requires r in FlowOf(accts, qs).roots
    ensures r in Keys(FlowOf(accts, qs).index)
  {
    var t := FlowOf(accts, qs);
    var s := Collect(accts);
    var e := EnumOrder(t.index);
    RootSelection(accts, qs);
    CollectWellFormed(accts);
    WireWellFormed(s.index, qs);
    EnumNamed(t.index);
    NotChildrenMembers(e, ChildSet(e), r);
    EnumKeys(t.index, r);
    if NotChildren(e, ChildSet(e)) == [] && accts != [] {
      LowestLayer(accts);
    }
  }

  // ---------------------------------------------------------------- the imperative builder

  /** The eleven canonical lookups of one row and the node built from them. */
  method NodeData(h: Headers, row: Row, accountNo: Cell, layer: Cell) returns (a: Account)
    requires accountNo == RowId(h, row) && layer == RowLayer(h, row)
    requires HasId(h, row) && IntegralLayer(h, row)
    ensures a == MakeAccount(h, row)
  {
    var sNo := GetValueByNormalizedKey(row, h.serial);
    var ack := GetValueByNormalizedKey(row, h.acknowledgement);
    var ifsc := GetValueByNormalizedKey(row, h.ifsc);
    var state := GetValueByNormalizedKey(row, h.state);
    var district := GetValueByNormalizedKey(row, h.district);
    var police := GetValueByNormalizedKey(row, h.policeStation);
    var designation := GetValueByNormalizedKey(row, h.designation);
    var mobile := GetValueByNormalizedKey(row, h.mobile);
    var email := GetValueByNormalizedKey(row, h.email);
    var canonical := [("accountNo", accountNo), ("layer", layer), ("sNo", sNo), ("acknowledgementN", ack),
                      ("ifscCode", ifsc), ("state", state), ("district", district), ("policeStation", police),
                      ("designation", designation), ("mobileNumber", mobile), ("email", email)];
    a := Account(ToJsString(accountNo), ToNumber(layer).n, PutAll(canonical, row), []);
  }

  /** Pass 1 over one more row adds that row's node, if it names an account. */
  lemma AccountsStep(h: Headers, rows: seq<Row>, i: nat)
    requires i < |rows| && IntegralLayers(h, rows[..i + 1])
    ensures IntegralLayers(h, rows[..i])
    ensures Accounts(h, rows[..i + 1]) ==
              Accounts(h, rows[..i]) + if HasId(h, rows[i]) then [MakeAccount(h, rows[i])] else []
  {
    var os := RowNodes(h, rows[..i + 1]);
    assert forall k :: 0 <= k <= i ==> rows[..i + 1][k] == rows[k];
    assert os[..i] == RowNodes(h, rows[..i]);
  }

  /** `accountMap[nodeData.name] = nodeData`, then the push onto the node's layer list. */
  method StoreNode(index0: Index, layerMap0: LayerMap, node: Account) returns (index: Index, layerMap: LayerMap)
    ensures Pass1State(index, layerMap) == AddAccount(Pass1State(index0, layerMap0), node)
  {
    index := Put(index0, node.name, node);
    var ids := Get(layerMap0, node.layer).GetOr([]);
    layerMap := Put(layerMap0, node.layer, ids + [node.name]);
  }

  /**
   * One iteration of the first `forEach`: a row without an account number is
   * skipped; `integral` reports whether `Number(layer)` gave an integer, and
   * the state is unchanged when it did not.
   */
  method IndexRow(h: Headers, row: Row, index0: Index, layerMap0: LayerMap)
    returns (index: Index, layerMap: LayerMap, integral: bool)
    ensures integral == IntegralLayer(h, row)
    ensures !integral ==> index == index0 && layerMap == layerMap0
    ensures integral ==>
              Pass1State(index, layerMap) ==
                if HasId(h, row) then AddAccount(Pass1State(index0, layerMap0), MakeAccount(h, row))
                else Pass1State(index0, layerMap0)
  {
    var accountNo := GetValueByNormalizedKey(row, h.account);
    var layerValue := GetValueByNormalizedKey(row, h.layer);
    var layer := Or(layerValue, Num(0));
    if !Truthy(accountNo) {
      return index0, layerMap0, true;
    }
    if !ToNumber(layer).Integral? {
      return index0, layerMap0, false;
    }
    var node := NodeData(h, row, accountNo, layer);
    index, layerMap := StoreNode(index0, layerMap0, node);
    integral := true;
  }

  /**
   * The first `forEach`: fills `accountMap` and `layerMap`, or stops at the
   * first row whose layer is not an integer and reports its position in `bad`.
   */
  method IndexRows(h: Headers, rows: seq<Row>) returns (index: Index, layerMap: LayerMap, bad: Option<nat>)
    ensures bad == FirstNonIntegralLayer(h, rows)
    ensures bad.None? ==> Pass1State(index, layerMap) == Pass1(h, rows)
  {
    index := [];
    layerMap := [];
    ghost var accts: seq<Account> := [];
    var i := 0;
    while i < |rows|
      invariant 0 <= i <= |rows|
      invariant IntegralLayers(h, rows[..i]) && accts == Accounts(h, rows[..i])
      invariant Pass1State(index, layerMap) == Collect(accts)
    {
      var integral;
      index, layerMap, integral := IndexRow(h, rows[i], index, layerMap);
      if !integral {
        AllOfPrefix(row => IntegralLayer(h, row), rows, i);
        FirstFailingAt(row => IntegralLayer(h, row), rows, i);
        return index, layerMap, Some(i);
      }
      AllOfPrefixStep(row => IntegralLayer(h, row), rows, i, rows[..i + 1]);
      AccountsStep(h, rows, i);
      if HasId(h, rows[i]) {
        CollectSnoc(accts, MakeAccount(h, rows[i]));
        accts := accts + [MakeAccount(h, rows[i])];
      }
      i := i + 1;
    }
    assert rows[..|rows|] == rows;
    bad := None;
  }

  /** One iteration of the second `forEach`: the child and parent ids of a row. */
  method ReadLink(h: Headers, row: Row) returns (q: LinkRequest)
    ensures q == RowLink(h, row)
  {
    var child := GetValueByNormalizedKey(row, h.linkAccount);
    var parent := GetValueByNormalizedKey(row, h.parent);
    var accountNo := ToJsString(Or(child, Str("")));
    var parentAccNo := ToJsString(Or(parent, Str("")));
    q := LinkRequest(accountNo, parentAccNo);
  }

  /** The guarded `accountMap[parentAccNo].children.push(accountMap[accountNo])`. */
  method AppendChild(index0: Index, q: LinkRequest) returns (index: Index)
    ensures index == Link(index0, q)
  {
    index := index0;
    GetNone(index, q.parent);
    GetNone(index, q.child);
    if q.child != "" && q.child != "null" && q.parent != "" && q.parent != "null" &&
       Get(index, q.parent).Some? && Get(index, q.child).Some? {
      var p := Get(index, q.parent).value;
      index := Put(index, q.parent, p.(children := p.children + [q.child]));
    }
  }

  lemma LinkRequestsStep(h: Headers, rows: seq<Row>, j: nat)
    requires j < |rows|
    ensures LinkRequests(h, rows[..j + 1]) == LinkRequests(h, rows[..j]) + [RowLink(h, rows[j])]
  {
    assert rows[..j + 1][..j] == rows[..j];
  }

  /** The second `forEach`: appends each accepted child to its parent. */
  method LinkRows(h: Headers, index0: Index, rows: seq<Row>) returns (index: Index)
    ensures index == Wire(index0, LinkRequests(h, rows))
  {
    index := index0;
    ghost var qs: seq<LinkRequest> := [];
    var j := 0;
    while j < |rows|
      invariant 0 <= j <= |rows|
      invariant qs == LinkRequests(h, rows[..j]) && index == Wire(index0, qs)
    {
      var q := ReadLink(h, rows[j]);
      LinkRequestsStep(h, rows, j);
      index := AppendChild(index, q);
      assert Wire(index0, qs + [q]) == Link(Wire(index0, qs), q) by {
        assert (qs + [q])[..|qs|] == qs;
      }
      qs := qs + [q];
      j := j + 1;
    }
    assert rows[..|rows|] == rows;
  }

  /** `childrenSet`, filled by a nested `forEach`. */
  method ChildIds(index: Index) returns (childrenSet: set<string>)
    ensures childrenSet == ChildSet(index)
  {
    childrenSet := {};
    var k := 0;
    while k < |index|
      invariant 0 <= k <= |index|
      invariant childrenSet == ChildSet(index[..k])
    {
      var kids := index[k].1.children;
      var m := 0;
      while m < |kids|
        invariant 0 <= m <= |kids|
        invariant childrenSet == ChildSet(index[..k]) + ElementSet(kids[..m])
      {
        assert kids[..m + 1] == kids[..m] + [kids[m]];
        childrenSet := childrenSet + {kids[m]};
        m := m + 1;
      }
      assert kids[..|kids|] == kids;
      assert index[..k + 1][..k] == index[..k];
      k := k + 1;
    }
    assert index[..|index|] == index;
  }

  /** The ids of the nodes whose name is not in `childrenSet`, in index order. */
  method NotChildRoots(index: Index, childrenSet: set<string>) returns (roots: seq<string>)
    ensures roots == NotChildren(index, childrenSet)
  {
    roots := [];
    var k := 0;
    while k < |index|
      invariant 0 <= k <= |index|
      invariant roots == NotChildren(index[..k], childrenSet)
    {
      assert index[..k + 1][..k] == index[..k];
      if index[k].1.name !in childrenSet {
        roots := roots + [index[k].0];
      }
      k := k + 1;
    }
    assert index[..|index|] == index;
  }

  /** The ids of `lowest` that the index knows, in order. */
  method KnownRoots(index: Index, lowest: seq<string>) returns (roots: seq<string>)
    ensures roots == KnownIds(index, lowest)
  {
    roots := [];
    var m := 0;
    while m < |lowest|
      invariant 0 <= m <= |lowest|
      invariant roots == KnownIds(index, lowest[..m])
    {
      assert lowest[..m + 1][..m] == lowest[..m];
      if Get(index, lowest[m]).Some? {
        roots := roots + [lowest[m]];
      }
      m := m + 1;
    }
    assert lowest[..|lowest|] == lowest;
  }

  /** Root selection with its two fallbacks. */
  method SelectRoots(index: Index, layerMap: LayerMap) returns (roots: seq<string>)
    ensures roots == RootsOf(index, layerMap)
  {
    var accounts := EnumOrder(index);
    var childrenSet := ChildIds(accounts);
    roots := NotChildRoots(accounts, childrenSet);
    var layers := Layers(layerMap);
    if |roots| == 0 && |layers| > 0 {
      roots := KnownRoots(index, Get(layerMap, layers[0]).GetOr([]));
    }
    if |roots| == 0 {
      roots := Keys(accounts);
    }
  }

  /** The passes of `buildTree` over a header table. */
  method Build(h: Headers, data: Option<seq<Row>>) returns (r: Outcome)
    ensures r == OutcomeOf(h, data)
  {
    if data.None? || |data.value| == 0 {
      return Built(NoData);
    }
    var rows := data.value;
    var index, layerMap, bad := IndexRows(h, rows);
    if bad.Some? {
      return NonIntegerLayer(bad.value);
    }
    var accountCount := |Keys(index)|;
    index := LinkRows(h, index, rows);
    var roots := SelectRoots(index, layerMap);
    r := Built(Flow(index, roots, accountCount, |Layers(layerMap)|));
  }

  /** `buildTree(data)` with the application's header table. */
  method BuildTree(data: Option<seq<Row>>) returns (r: Outcome)
    ensures r == OutcomeOf(SourceHeaders, data)
  {
    r := Build(SourceHeaders, data);
  }
}
