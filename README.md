# Excel Analyzer: account hierarchy core

Excel Analyzer reads a spreadsheet of bank-transaction rows and shows the
accounts as a hierarchy. This project models that core in Dafny and proves
properties of the model. There are three parts:

- **`buildTree`** (`HierarchyBuilder`). It resolves each row's columns by
  normalised header names (`ColumnResolver`) and builds an index of account
  nodes, one per printed account id, where the last row wins. It records the
  ids of each layer. It links children to parents by the parent-id column. It
  then picks the roots: first every account that no account lists as a child;
  failing that, the lowest layer; failing that, every account. It returns a
  synthetic "Transaction Flow" root carrying the account and layer counts,
  or the "No Data" sentinel when the input is missing or empty.
- **The canvas view** (`InteractiveTreeView`, modelled by `LayerIndex`,
  `LayoutEngine`, `Connectors`, `LayerColors`, `TreeView`). It has:
  - a depth-first walk that buckets the accounts by layer;
  - the initial stack of layer hubs;
  - the grid that places a layer's leaves when the layer is expanded;
  - the hub-to-leaf wires;
  - the colour palette;
  - the zoom, pan, drag and select gestures, as a `Canvas` class whose
    handlers update its fields.
- **The list view** (`TreeWorkspace`). It shows one collapsible phase per
  layer. Each phase reads as expanded unless it was collapsed explicitly.

Both views build the detail list of an account the same way
(`AttributeList`). First, for each group of alternative attribute names, the
first present value. Then every remaining present attribute that is not
already shown, under a label derived from its name.

JavaScript semantics that the core relies on are written out in Dafny:

- `JsValues`: `||`, truthiness, the present-value test, `String`, and `Number`
  as ECMAScript's StringToNumber reads a string: white space around it is
  dropped, the empty string is 0, `0x`/`0o`/`0b` literals take no sign, and
  otherwise a signed decimal literal with an optional fraction and exponent,
  or `Infinity`, is read; anything else is NaN.
- `JsStrings`: `trim`, `parseInt`, `split`, integer printing.
- `JsObject`: plain objects as insertion-ordered association lists. Integer-like
  keys enumerate first, in ascending order.
- `NumericSort`: `sort((a, b) => a - b)`.

The spreadsheet parser is not part of this model. A row is an association
list from header to cell. A cell is `undefined`, `null`, a string or an
integer.

Two things the program does not do are worth stating, since the model
follows the program in both:

- **Negative layers.** Layers are meant to be non-negative integers, but
  `buildTree` stores whatever `Number(...)` makes of the layer column and never
  checks the sign. The model therefore allows any integer layer. This is what
  exposes the finding below.
- **Parent cycles.** Nothing in the program detects a cycle of parent links;
  the depth-first walk of the views would recurse until the stack overflows.
  The model bounds the walk by fuel, and `LayerIndex.WalkComplete` shows the
  fuel never runs out when the hierarchy is ranked, i.e. free of cycles.

## Model

| member | source | states |
|---|---|---|
| JsValues.Or | client/src/components/buildTree.js:70 | `a \|\| b` is one of its two operands, `a` whenever `a` is truthy, and it is truthy exactly when one of the operands is |
| JsValues.PresentFalsyIsZero | client/src/components/buildTree.js:76 | a present cell that is falsy can only be the number 0 (so `!accountNo` also skips an id of 0) |
| JsValues.ToNumberIgnoresSpace | client/src/components/buildTree.js:86 | white space around a string does not change the number it reads as |
| JsValues.ToNumberOfPrintedInteger | client/src/components/buildTree.js:86 | `Number` of a printed integer gives back the integer, negative ones included |
| JsValues.ToNumberOfPaddedInteger | client/src/components/buildTree.js:86 | a printed integer between any white space reads as that integer (`" 7\n"` is 7) |
| JsValues.ToNumberOfDecimalPoint | client/src/components/buildTree.js:86 | a printed integer followed by a point and any number of zeros reads as that integer (`"2.0"` is 2) |
| JsValues.ToNumberOfFraction | client/src/components/buildTree.js:86 | a printed integer followed by a point and digits ending in a non-zero digit is not an integer (`"2.5"`) |
| JsValues.ToNumberOfExponent | client/src/components/buildTree.js:86 | a numeral, `e` and a second numeral `k` read as the first times `10^k` (`"1e1"` is 10) |
| JsValues.ToNumberOfRadixLiteral | client/src/components/buildTree.js:86 | `0x`, `0o` or `0b` followed by digits of that base reads as their value in that base (`"0x2"` is 2) |
| JsValues.ToNumberOfSignedRadixLiteral | client/src/components/buildTree.js:86 | a sign in front of a radix literal makes it NaN |
| JsValues.ToNumberOfNonLiteral | client/src/components/buildTree.js:86 | every string whose first character after the white space is not a digit, a sign, a point or the `I` of `Infinity` reads as NaN (`"abc"`) |
| JsValues.ToJsStringRoundTrip | client/src/components/buildTree.js:85 | `Number(String(x))` gives back the value of a numeric cell, and `String` gives back a string cell unchanged |
| JsStrings.Trim | client/src/components/buildTree.js:18 | the trimmed string is no longer than the input and neither starts nor ends with white space |
| JsStrings.TrimPadded | client/src/components/buildTree.js:18 | trimming removes exactly the white space around a non-empty string that has none inside |
| JsStrings.TrimWithoutSpace | client/src/components/buildTree.js:18 | trimming a string with no white space gives it back unchanged |
| JsStrings.IntToString | client/src/components/InteractiveTreeView.jsx:243 | a printed integer starts with '-' exactly when the integer is negative |
| JsStrings.NatToString | client/src/components/InteractiveTreeView.jsx:243 | a printed natural is a non-empty digit string with no leading zero whose value is the number |
| JsStrings.ParseIntOfIntToString | client/src/components/InteractiveTreeView.jsx:107 | `parseInt` inverts integer printing, negative numbers included |
| JsStrings.ParseIntOfEmpty | client/src/components/InteractiveTreeView.jsx:365 | `parseInt("")` is NaN |
| JsStrings.ParseInt | client/src/components/InteractiveTreeView.jsx:365 | `parseInt` with the default radix, on a string without a `0x` prefix, is NaN exactly when no digit follows the leading blanks and optional sign |
| JsStrings.Split | client/src/components/InteractiveTreeView.jsx:364 | `split` gives at least one part, and no part contains the separator |
| JsStrings.SplitWithoutSeparator | client/src/components/InteractiveTreeView.jsx:364 | a string without the separator splits into itself alone |
| JsStrings.SplitAtFirstSeparator | client/src/components/InteractiveTreeView.jsx:364 | splitting `a + sep + b`, where `a` has no separator, gives `a` followed by the parts of `b` |
| JsStrings.SplitPastTwo | client/src/components/InteractiveTreeView.jsx:364 | splitting past two separator-free parts gives those two parts, then the parts of the rest |
| JsObject.Keys | client/src/components/buildTree.js:25 | `Object.keys` lists the key of every entry, in entry order |
| JsObject.Values | client/src/components/buildTree.js:194 | `Object.values` lists the value of every entry, in entry order |
| JsObject.GetNone | client/src/components/buildTree.js:174-175 | a lookup misses exactly when the key is not among the keys |
| JsObject.GetFound | client/src/components/buildTree.js:174-175 | a successful lookup finds the first entry with that key |
| JsObject.GetAt | client/src/components/buildTree.js:214 | in an object without repeated keys, looking up any entry's key gives that entry's value |
| JsObject.PutGet | client/src/components/buildTree.js:129 | after `o[k] = v`, reading `k` gives `v` and reading any other key gives what it gave before |
| JsObject.PutKeys | client/src/components/buildTree.js:129 | assigning an existing key keeps the key order; assigning a new key appends it |
| JsObject.PutEntry | client/src/components/buildTree.js:129 | after an assignment, each entry is either the assigned pair or the entry that was at that position |
| JsObject.PutWellFormed | client/src/components/buildTree.js:129 | assignment never creates a repeated key |
| JsObject.PutAllGet | client/src/components/buildTree.js:124 | after a spread, a key reads as its last value in the spread entries if they contain it, and as before otherwise |
| JsObject.PutAllWellFormed | client/src/components/buildTree.js:124 | a spread never creates a repeated key |
| JsObject.PutAll | client/src/components/buildTree.js:124 | a spread keeps the existing keys in front, in their order |
| JsObject.KeyCount | client/src/components/buildTree.js:231 | `Object.keys(o).length` is the number of distinct keys |
| JsObject.LastValue | client/src/components/buildTree.js:124 | a key has a last value in a list of entries exactly when some entry has that key |
| JsObject.InsertByIndex | client/src/components/buildTree.js:194 | inserting an integer-like key keeps the entries in ascending index order and adds exactly that entry |
| JsObject.EnumParts | client/src/components/buildTree.js:194 | splitting an object for enumeration keeps every entry: integer-like keys ascending, then the rest |
| JsObject.EnumOrder | client/src/components/buildTree.js:194 | the enumeration order is a rearrangement of the object's entries |
| JsObject.EnumKeys | client/src/components/buildTree.js:201 | enumeration lists exactly the object's keys |
| JsObject.EnumOrderShape | client/src/components/buildTree.js:201 | in enumeration order no integer-like key follows a plain key, and integer-like keys ascend |
| JsObject.EnumOrderOfPlainKeys | client/src/components/buildTree.js:201 | an object with no integer-like key enumerates in insertion order |
| Wrappers.Somes | client/src/components/buildTree.js:76-81 | keeping the present values never lengthens a list |
| Wrappers.SomesMembers | client/src/components/buildTree.js:76-81 | a value is kept exactly when some position holds it |
| NumericSort.Insert | client/src/components/buildTree.js:186-188 | inserting into an ascending list keeps it ascending and adds exactly one copy of the value |
| NumericSort.Sort | client/src/components/buildTree.js:186-188 | the numeric sort is ascending and a permutation of its input |
| NumericSort.SortDistinct | client/src/components/buildTree.js:186-188 | sorting distinct layer numbers gives a strictly ascending list |
| ColumnResolver.LowerAscii | client/src/components/buildTree.js:16 | lower-casing an ASCII capital gives its small letter, so no ASCII capital is left, and never changes whether a character is a separator |
| ColumnResolver.ToLowerCase | client/src/components/buildTree.js:16 | ASCII `toLowerCase` lower-cases each character in place and so keeps the length (full Unicode case mapping, which can change the length, is left out) |
| ColumnResolver.RemoveSeparators | client/src/components/buildTree.js:17 | removing `[\s._-]` leaves only characters of the input that are not separators |
| ColumnResolver.RemoveSeparatorsOfClean | client/src/components/buildTree.js:17 | removal is the identity on a string with no separator |
| ColumnResolver.NormalizeKey | client/src/components/buildTree.js:14-19 | a normalised header has no capital letter and no space, dot, underscore or hyphen |
| ColumnResolver.NormalizeKeyTrimmed | client/src/components/buildTree.js:14-19 | the final `trim` is redundant: normalisation equals its trimmed form |
| ColumnResolver.NormalizeKeyIdempotent | client/src/components/buildTree.js:14-19 | normalising twice is the same as normalising once |
| ColumnResolver.NormalizedRowDomain | client/src/components/buildTree.js:24-28 | the normalised row has an entry for a key exactly when some header normalises to it |
| ColumnResolver.NormalizedRowSnoc | client/src/components/buildTree.js:25-28 | each header's value overwrites the entry of its normalised name, in header order |
| ColumnResolver.NormalizedRowLastWins | client/src/components/buildTree.js:24-28 | when several headers normalise to the same key, the last one's value wins |
| ColumnResolver.FirstPresent | client/src/components/buildTree.js:31-41 | the result is `null` or a present value |
| ColumnResolver.FirstPresentFinds | client/src/components/buildTree.js:31-39 | the value of the first candidate whose entry is present is returned |
| ColumnResolver.FirstPresentNull | client/src/components/buildTree.js:31-41 | the result is `null` exactly when no candidate's entry is present |
| ColumnResolver.Resolve | client/src/components/buildTree.js:22-42 | resolving candidates against a row yields `null` or a present value |
| ColumnResolver.GetValueByNormalizedKey | client/src/components/buildTree.js:22-42 | the loop that builds the normalised row and scans the candidates returns `Resolve` |
| HierarchyBuilder.FirstNonIntegralLayer | client/src/components/buildTree.js:57-137 | no row is reported exactly when every account row's layer reads as an integer; a reported row is the first whose layer does not |
| HierarchyBuilder.MakeAccount | client/src/components/buildTree.js:84-127 | builds a row's node; its properties are stated by `MakeAccountFields` and `NodeData` |
| HierarchyBuilder.MakeAccountFields | client/src/components/buildTree.js:84-127 | the node's name is `String(id)`, its layer is `Number(layer \|\| 0)`, it has no children; every attribute reads as the raw row's value if the row has that header, and as the canonical field otherwise |
| HierarchyBuilder.RowNodes | client/src/components/buildTree.js:57-81 | pass 1 turns each row, in order, into its node or a skip |
| HierarchyBuilder.AccountOfRow | client/src/components/buildTree.js:76-84 | every row with an id contributes its node |
| HierarchyBuilder.RowOfAccount | client/src/components/buildTree.js:76-84 | every node comes from some row with an id |
| HierarchyBuilder.Pass1 | client/src/components/buildTree.js:57-137 | the two maps after pass 1; their contents are stated by `CollectIndex`, `CollectLayerMap` and `CollectWellFormed` |
| HierarchyBuilder.CollectSnoc | client/src/components/buildTree.js:129-136 | pass 1 processes accounts one at a time, in row order |
| HierarchyBuilder.LastNamed | client/src/components/buildTree.js:129 | the last account with a given id exists exactly when some account has that id |
| HierarchyBuilder.NamesInLayer | client/src/components/buildTree.js:132-136 | a layer's id list holds only ids of accounts, and is empty exactly when no account is on that layer |
| HierarchyBuilder.CollectIndex | client/src/components/buildTree.js:129 | the account index maps each id to the last row's node with that id |
| HierarchyBuilder.CollectLayerMap | client/src/components/buildTree.js:132-136 | the layer map holds, for each layer that occurs, the ids of its rows in row order (repeats included), and has no entry for other layers |
| HierarchyBuilder.CollectWellFormed | client/src/components/buildTree.js:129-136 | neither map has repeated keys, and each node is filed under its own id |
| HierarchyBuilder.CollectKeys | client/src/components/buildTree.js:129 | the index knows exactly the ids of the accounts |
| HierarchyBuilder.CollectLayerKeys | client/src/components/buildTree.js:133-135 | the layer map has exactly the layers of the accounts |
| HierarchyBuilder.PutNamed | client/src/components/buildTree.js:129 | filing a node under its own id keeps every node filed under its own id |
| HierarchyBuilder.LinkRequests | client/src/components/buildTree.js:149-165 | pass 2 reads one child/parent pair per row, in row order |
| HierarchyBuilder.Link | client/src/components/buildTree.js:167-179 | a link never adds or removes an account |
| HierarchyBuilder.Wire | client/src/components/buildTree.js:149-180 | pass 2 keeps the set and order of accounts |
| HierarchyBuilder.WithChildren | client/src/components/buildTree.js:177 | appending children changes nothing but the child list, which grows by exactly the appended ids |
| HierarchyBuilder.WithChildrenAppend | client/src/components/buildTree.js:177 | two appends are one append of both lists |
| HierarchyBuilder.WithChildrenNone | client/src/components/buildTree.js:177 | appending nothing leaves the node as it was |
| HierarchyBuilder.LinkGet | client/src/components/buildTree.js:167-179 | a link appends the child id to the parent exactly when both ids are non-empty, not "null", and known; every other node is unchanged |
| HierarchyBuilder.WireEffect | client/src/components/buildTree.js:149-180 | after pass 2 each node ends with its own children followed by the ids of the rows that linked to it, in row order |
| HierarchyBuilder.WireWellFormed | client/src/components/buildTree.js:149-180 | pass 2 keeps the index free of repeated keys, with every node filed under its id |
| HierarchyBuilder.ElementSet | client/src/components/buildTree.js:193-196 | the set of a list's elements holds exactly the list's elements |
| HierarchyBuilder.ChildSetMembers | client/src/components/buildTree.js:193-196 | `childrenSet` holds exactly the ids listed as some node's child |
| HierarchyBuilder.SubsequenceOfSnoc | client/src/components/buildTree.js:201-205 | extending both lists by one shared element keeps one a subsequence of the other |
| HierarchyBuilder.NotChildrenMembers | client/src/components/buildTree.js:201-205 | the primary roots are exactly the indexed ids that are not in `childrenSet` |
| HierarchyBuilder.NotChildrenInOrder | client/src/components/buildTree.js:201-205 | the primary roots keep the enumeration order of the index |
| HierarchyBuilder.ChildSetEnum | client/src/components/buildTree.js:194 | enumerating the index in `Object.values` order does not change the set of children |
| HierarchyBuilder.EnumNamed | client/src/components/buildTree.js:201 | enumeration keeps every node filed under its own id |
| HierarchyBuilder.KnownIdsAll | client/src/components/buildTree.js:213-217 | the lowest-layer fallback keeps every id when all of them are known |
| HierarchyBuilder.NoDataExactlyOnEmptyInput | client/src/components/buildTree.js:4-10 | the "No Data" sentinel comes back exactly when the data is missing or empty |
| HierarchyBuilder.IndexEntry | client/src/components/buildTree.js:57-180 | in the result, each id maps to the last row's node with that id, extended by the ids of its linking rows |
| HierarchyBuilder.TotalAccountsCountsIds | client/src/components/buildTree.js:231 | `totalAccounts` is the number of distinct account ids |
| HierarchyBuilder.TotalLayersCountsLayers | client/src/components/buildTree.js:232 | `totalLayers` is the number of distinct layers |
| HierarchyBuilder.LowestLayer | client/src/components/buildTree.js:210-217 | when pass 1 found an account, the lowest layer exists, has ids, and every one of them is indexed |
| HierarchyBuilder.RootsOf | client/src/components/buildTree.js:185-226 | the roots: the non-child ids, else the known ids of the lowest layer, else every id; stated by `RootSelection` and `PrimaryRoots` |
| HierarchyBuilder.TreeOf | client/src/components/buildTree.js:1-243 | the tree `buildTree` returns when every layer is an integer; stated by `NoDataExactlyOnEmptyInput`, `IndexEntry`, the two counts and the root lemmas |
| HierarchyBuilder.OutcomeOf | client/src/components/buildTree.js:1-243 | the tree of `TreeOf` exactly when the data is missing or every account row's layer is an integer; otherwise the position of the first account row whose layer is NaN, a fraction or an infinity, every earlier row's being an integer |
| HierarchyBuilder.RootSelection | client/src/components/buildTree.js:185-226 | the roots are the non-child accounts, else the lowest layer's ids, else nothing; with any account there is at least one root, so the all-accounts fallback never adds anything |
| HierarchyBuilder.PrimaryRoots | client/src/components/buildTree.js:193-205 | an id is a primary root exactly when it is indexed and no node lists it as a child; the primary roots come in enumeration order |
| HierarchyBuilder.AddedChildrenKnown | client/src/components/buildTree.js:174-175 | pass 2 only adds ids the index knows |
| HierarchyBuilder.ChildKnown | client/src/components/buildTree.js:174-177 | every child of a built node is an indexed account |
| HierarchyBuilder.RootKnown | client/src/components/buildTree.js:201-226 | every root is an indexed account |
| HierarchyBuilder.NodeData | client/src/components/buildTree.js:84-127 | building the node object gives `MakeAccount` of the row |
| HierarchyBuilder.StoreNode | client/src/components/buildTree.js:129-136 | storing a node updates both maps as one pass-1 step |
| HierarchyBuilder.IndexRow | client/src/components/buildTree.js:57-137 | one iteration of pass 1 is one resolve-skip-store step |
| HierarchyBuilder.IndexRows | client/src/components/buildTree.js:57-137 | the pass-1 loop computes `Pass1` of the rows |
| HierarchyBuilder.AccountsStep | client/src/components/buildTree.js:57-137 | pass 1 over one more row appends that row's node when the row names an account, and nothing otherwise |
| HierarchyBuilder.ReadLink | client/src/components/buildTree.js:150-165 | reading the child and parent ids of a row gives its link request |
| HierarchyBuilder.AppendChild | client/src/components/buildTree.js:167-179 | one iteration of pass 2 is one `Link` |
| HierarchyBuilder.LinkRequestsStep | client/src/components/buildTree.js:149 | pass 2 reads one more request per row |
| HierarchyBuilder.LinkRows | client/src/components/buildTree.js:149-180 | the pass-2 loop computes `Wire` of the rows' requests |
| HierarchyBuilder.ChildIds | client/src/components/buildTree.js:193-196 | the nested loop collects exactly `ChildSet` |
| HierarchyBuilder.NotChildRoots | client/src/components/buildTree.js:201-205 | the loop collects the non-child ids in enumeration order |
| HierarchyBuilder.KnownRoots | client/src/components/buildTree.js:213-217 | the fallback loop keeps the known ids of the lowest layer |
| HierarchyBuilder.SelectRoots | client/src/components/buildTree.js:185-226 | root selection with both fallbacks computes `RootsOf` |
| HierarchyBuilder.Build | client/src/components/buildTree.js:1-243 | for any header table and any data, the procedure computes `OutcomeOf`: the built tree, or the first row whose layer is not an integer |
| HierarchyBuilder.BuildTree | client/src/components/buildTree.js:1-243 | `buildTree` with the application's header table computes `OutcomeOf` for any data |
| LayerIndex.Push | client/src/components/InteractiveTreeView.jsx:57-60 | one bucket push; stated by `PushGet` |
| LayerIndex.LayerIndexOf | client/src/components/InteractiveTreeView.jsx:48-69 | the whole layer index; stated by `LayerIndexContents` |
| LayerIndex.LayersOf | client/src/components/InteractiveTreeView.jsx:70 | the sorted layer numbers; stated by `LayersAscending` |
| LayerIndex.Visit | client/src/components/InteractiveTreeView.jsx:48-67 | the walk never yields the synthetic root |
| LayerIndex.VisitAll | client/src/components/InteractiveTreeView.jsx:62-64 | walking a child list never yields the synthetic root |
| LayerIndex.Walk | client/src/components/InteractiveTreeView.jsx:48-55 | the walk of the whole tree skips the "Transaction Flow" node itself |
| LayerIndex.OnLayer | client/src/components/InteractiveTreeView.jsx:56-60 | a layer's selection holds only nodes of that layer, taken from the walk |
| LayerIndex.BucketAppend | client/src/components/InteractiveTreeView.jsx:56-60 | bucketing two walks in turn is bucketing their concatenation |
| LayerIndex.BucketSnoc | client/src/components/InteractiveTreeView.jsx:57-60 | bucketing one more node is one more push |
| LayerIndex.PushGet | client/src/components/InteractiveTreeView.jsx:57-60 | a push appends the node to its own layer's bucket and to no other |
| LayerIndex.BucketContents | client/src/components/InteractiveTreeView.jsx:56-60 | each bucket is the old one followed by the walked nodes of its layer, in walk order |
| LayerIndex.Regroup | client/src/components/InteractiveTreeView.jsx:56-60 | splitting a walk at a node and regrouping the pieces gives back the walk |
| LayerIndex.BucketKeys | client/src/components/InteractiveTreeView.jsx:57-59 | a layer has a bucket exactly when it had one or some walked node is on it |
| LayerIndex.BucketWellFormed | client/src/components/InteractiveTreeView.jsx:57-59 | bucketing never repeats a layer key |
| LayerIndex.LayerIndexContents | client/src/components/InteractiveTreeView.jsx:48-69 | each layer's bucket is exactly the walked nodes of that layer, in depth-first order, none of them the synthetic root |
| LayerIndex.LayersAscending | client/src/components/InteractiveTreeView.jsx:70 | `layers` is strictly ascending and lists exactly the layers some walked node has |
| LayerIndex.VisitAllAppend | client/src/components/InteractiveTreeView.jsx:62-64 | walking two child lists in turn is walking their concatenation |
| LayerIndex.RepeatedChild | client/src/components/InteractiveTreeView.jsx:62-64 | a child listed twice is walked twice |
| LayerIndex.FuelSuffices | client/src/components/InteractiveTreeView.jsx:48-67 | on a ranked (cycle-free) index, extra fuel does not change a node's walk |
| LayerIndex.FuelSufficesAll | client/src/components/InteractiveTreeView.jsx:62-64 | on a ranked index, extra fuel does not change the walk of a child list |
| LayerIndex.WalkComplete | client/src/components/InteractiveTreeView.jsx:48-69 | on a ranked index, the walk is already complete with fuel equal to the index size |
| LayerIndex.NoDataLayers | client/src/components/InteractiveTreeView.jsx:56-70 | the "No Data" sentinel sits alone on layer 0 |
| LayerIndex.FoldAppend | client/src/components/InteractiveTreeView.jsx:48-67 | folding over two walks in turn is folding over their concatenation |
| LayerIndex.VisitKnown | client/src/components/InteractiveTreeView.jsx:56-64 | visiting a known node enters it, then its children with one less fuel |
| LayerIndex.NodeFoldWalk | client/src/components/InteractiveTreeView.jsx:48-67 | the recursive traversal of a node equals a fold over its walk |
| LayerIndex.ChildFoldWalk | client/src/components/InteractiveTreeView.jsx:62-64 | the traversal of a child list equals a fold over its walk |
| LayerIndex.BucketIsFold | client/src/components/InteractiveTreeView.jsx:56-60 | bucketing is a fold of pushes |
| LayerIndex.PushNode | client/src/components/InteractiveTreeView.jsx:57-60 | the bucket push computes `Push` |
| LayerIndex.OrganizeNode | client/src/components/InteractiveTreeView.jsx:48-67 | recursive `organizeByLayers` on a node computes its traversal |
| LayerIndex.OrganizeAccount | client/src/components/InteractiveTreeView.jsx:56-64 | organising an account pushes it, then organises its children |
| LayerIndex.OrganizeChildren | client/src/components/InteractiveTreeView.jsx:62-64 | the child loop organises each child in turn |
| LayerIndex.Organize | client/src/components/InteractiveTreeView.jsx:48-69 | `organizeByLayers(data)` computes the layer index of the tree |
| LayoutEngine.HubSlot | client/src/components/InteractiveTreeView.jsx:79-93 | the `i`-th hub of the initial stack sits at x = 100, y = 100 + 170·i; stated by `InitHubs` |
| LayoutEngine.Slot | client/src/components/InteractiveTreeView.jsx:115-135 | the grid slot of a layer's `i`-th leaf; stated by `SlotsDistinct`, `GridShape` and `SlotFollowsHub` |
| LayoutEngine.IsRelayout | client/src/components/InteractiveTreeView.jsx:100-141 | relates the positions before and after the expand effect, key by key; `Relayout`, `RelayoutUnique` and `RelayoutIdempotent` are stated with it |
| LayoutEngine.Rows | client/src/components/InteractiveTreeView.jsx:115 | `Math.ceil(n / 4)`: the smallest row count that fits `n` leaves four to a row |
| LayoutEngine.InitHubs | client/src/components/InteractiveTreeView.jsx:73-97 | a non-empty position map is kept; otherwise there is one hub per layer and nothing else, stacked 170 apart from y = 100 at x = 100 |
| LayoutEngine.ExpandedSetGet | client/src/components/InteractiveTreeView.jsx:104-105 | the layers relaid are exactly those whose flag is `true` |
| LayoutEngine.ExpandedSetSnoc | client/src/components/InteractiveTreeView.jsx:104-105 | each flag, in key order, adds its layer when it is `true` |
| LayoutEngine.GridLayer | client/src/components/InteractiveTreeView.jsx:123-136 | the leaves of the layer, except a "Transaction Flow" node, get their grid slot; every other key is untouched |
| LayoutEngine.RelayoutStep | client/src/components/InteractiveTreeView.jsx:104-137 | gridding a positioned layer extends a relayout by that layer |
| LayoutEngine.RelayoutSkip | client/src/components/InteractiveTreeView.jsx:112 | a layer without a hub position is skipped |
| LayoutEngine.Relayout | client/src/components/InteractiveTreeView.jsx:100-141 | the effect throws exactly when an expanded, positioned layer has no bucket; otherwise it gives the relayout of the expanded layers |
| LayoutEngine.RelayoutUnique | client/src/components/InteractiveTreeView.jsx:100-141 | the relayout does not depend on the order in which layers are visited |
| LayoutEngine.RelayoutIdempotent | client/src/components/InteractiveTreeView.jsx:100-141 | relaying out a relayout changes nothing |
| LayoutEngine.RelayoutKeepsHubs | client/src/components/InteractiveTreeView.jsx:110-112 | relayout neither adds, removes nor moves any hub |
| LayoutEngine.RegridForgets | client/src/components/InteractiveTreeView.jsx:132-135 | a dragged leaf of an expanded layer is put back on its grid slot, whatever it was dragged to |
| LayoutEngine.SlotsDistinct | client/src/components/InteractiveTreeView.jsx:129-135 | two leaves of one layer never share a slot |
| LayoutEngine.GridShape | client/src/components/InteractiveTreeView.jsx:115-135 | leaves sit 350 to 1400 right of the hub, within the rows of the grid, and the grid is centred 60 below the hub's top |
| LayoutEngine.SlotFollowsHub | client/src/components/InteractiveTreeView.jsx:110-122 | moving a hub moves its grid by the same offset |
| Connectors.ConnectionsOf | client/src/components/InteractiveTreeView.jsx:237-260 | the memoised connections; stated by `ConnectionMembers`, `ConnectionGeometry` and `ConnectionKeysUnique` |
| Connectors.WireKey | client/src/components/InteractiveTreeView.jsx:253 | the React key `wire-node-<layer>-<index>`; its parts are stated by `WireKeyPartsNatural` and `WireKeyPartsNegative` |
| Connectors.ShownAsWritten | client/src/components/InteractiveTreeView.jsx:363-367 | the render filter as written, reading the layer back from the key; compared with the intended filter in `ShownAsWrittenAgrees` |
| Connectors.Wire | client/src/components/InteractiveTreeView.jsx:252-256 | the spline leaves the hub and enters the leaf horizontally, with control points 150 and 100 away |
| Connectors.LayerConnections | client/src/components/InteractiveTreeView.jsx:240-257 | the inner loop appends the wires of one layer |
| Connectors.Connections | client/src/components/InteractiveTreeView.jsx:237-260 | the memo computes `ConnectionsOf` |
| Connectors.LayerWiresMembers | client/src/components/InteractiveTreeView.jsx:241-257 | a layer's wires are exactly the wires of its positioned leaves (not the synthetic root) whose hub is positioned |
| Connectors.WiresUpToMembers | client/src/components/InteractiveTreeView.jsx:239-258 | the wires of the first layers are exactly the wires of their leaves |
| Connectors.ConnectionMembers | client/src/components/InteractiveTreeView.jsx:237-260 | a connection exists exactly for each positioned leaf of a layer whose hub is positioned, coloured by the layer's position |
| Connectors.ConnectionGeometry | client/src/components/InteractiveTreeView.jsx:244-256 | each wire runs from the hub's right edge (+200, +60) to the leaf's left edge (+0, +70) |
| Connectors.AppendAscending | client/src/components/InteractiveTreeView.jsx:239-258 | two key-ordered wire lists, the first entirely before the second, concatenate into a key-ordered list |
| Connectors.LayerWiresShape | client/src/components/InteractiveTreeView.jsx:241-257 | a layer's wires stay on that layer, in ascending leaf order |
| Connectors.WiresUpToShape | client/src/components/InteractiveTreeView.jsx:239-258 | the wires come ordered by layer, then leaf |
| Connectors.ConnectionKeysUnique | client/src/components/InteractiveTreeView.jsx:253 | no two wires share a React key |
| Connectors.NoDashInDigits | client/src/components/InteractiveTreeView.jsx:364 | a digit string contains no '-' |
| Connectors.WireKeyPartsNatural | client/src/components/InteractiveTreeView.jsx:364 | a wire key of a non-negative layer splits into "wire", "node", the layer and the index |
| Connectors.WireKeyPartsNegative | client/src/components/InteractiveTreeView.jsx:364 | a wire key of a negative layer splits with an empty third part |
| Connectors.KeyLayerRoundTrip | client/src/components/InteractiveTreeView.jsx:364-365 | reading the layer back from a wire key works for non-negative layers and gives NaN for negative ones |
| Connectors.ShownAsWrittenAgrees | client/src/components/InteractiveTreeView.jsx:363-367 | the key-based filter agrees with the intended one on non-negative layers and hides every negative-layer wire |
| Connectors.NegativeLayerWireHidden | client/src/components/InteractiveTreeView.jsx:363-367 | with layer -1 expanded, its wire should be drawn but is not |
| Connectors.Filter | client/src/components/InteractiveTreeView.jsx:359-367 | filtering never lengthens the list |
| Connectors.FilterMembers | client/src/components/InteractiveTreeView.jsx:359-367 | a wire survives the filter exactly when it is in the list and accepted |
| Connectors.VisibleWiresMembers | client/src/components/InteractiveTreeView.jsx:363-367 | with the corrected filter, a wire is drawn exactly when its layer's flag is truthy |
| Connectors.VisibleWiresAsWrittenMembers | client/src/components/InteractiveTreeView.jsx:363-367 | as written, a wire is drawn exactly when its layer is non-negative and its flag is truthy |
| Connectors.DrawnWires | client/src/components/InteractiveTreeView.jsx:237-260 | a wire is drawn exactly when its leaf and hub are positioned, the leaf is not the synthetic root, and its layer is expanded |
| LayerColors.CanvasLayerColor | client/src/components/InteractiveTreeView.jsx:11-21 | the canvas colour is always one of the six palette entries |
| LayerColors.ListLayerColor | client/src/components/TreeWorkspace.jsx:225-235 | the list colour is always one of the six palette entries |
| LayerColors.CanvasStrokesDistinct | client/src/components/InteractiveTreeView.jsx:12-19 | the six canvas strokes are pairwise different |
| LayerColors.ListBordersDistinct | client/src/components/TreeWorkspace.jsx:226-233 | the six list borders are pairwise different |
| LayerColors.CanvasColorCycle | client/src/components/InteractiveTreeView.jsx:20 | canvas colours repeat every six layers and differ within any six consecutive positions |
| LayerColors.ListColorCycle | client/src/components/TreeWorkspace.jsx:234 | list colours repeat every six layers and differ within any six consecutive positions |
| TreeView.Toggle | client/src/components/InteractiveTreeView.jsx:31-36 | `toggleLayer`; stated by `ToggleEffect` and `ToggleTwice` |
| TreeView.ZoomIn | client/src/components/InteractiveTreeView.jsx:204 | `handleZoomIn`; stated by `ZoomSteps` and `ZoomInSaturates` |
| TreeView.ZoomOut | client/src/components/InteractiveTreeView.jsx:205 | `handleZoomOut`; stated by `ZoomSteps` |
| TreeView.CanvasDown | client/src/components/InteractiveTreeView.jsx:212-218 | a press on the background; stated by `PanGesture` and `Canvas.CanvasMouseDown` |
| TreeView.NodeDown | client/src/components/InteractiveTreeView.jsx:220-226 | a press on a node; stated by `DragGesture`, `DragMark` and `Canvas.NodeMouseDown` |
| TreeView.Up | client/src/components/InteractiveTreeView.jsx:184-188 | a release; stated by `UpEnds` |
| TreeView.Click | client/src/components/InteractiveTreeView.jsx:228-232 | a click on a node; stated by `ClickAfterGesture` and `Canvas.NodeClick` |
| TreeView.ToggleEffect | client/src/components/InteractiveTreeView.jsx:31-36 | a toggle flips its own layer's truthiness and leaves every other layer's entry unchanged |
| TreeView.ToggleTwice | client/src/components/InteractiveTreeView.jsx:31-36 | two toggles of a layer restore each layer's truthiness |
| TreeView.ZoomSteps | client/src/components/InteractiveTreeView.jsx:204-205 | zoom stays within 0.2 to 2 and moves by 0.1 steps, saturating at the ends; in and out undo each other away from the ends |
| TreeView.ZoomInSaturates | client/src/components/InteractiveTreeView.jsx:204 | `n` zoom-ins give `min(zoom + n steps, 2)` |
| TreeView.DragFollowsPointer | client/src/components/InteractiveTreeView.jsx:170-172 | the dragged node's offset, scaled by the zoom, equals the pointer's offset |
| TreeView.Move | client/src/components/InteractiveTreeView.jsx:154-182 | a pointer move never changes the zoom |
| TreeView.Moves | client/src/components/InteractiveTreeView.jsx:154-182 | a sequence of pointer moves never changes the zoom |
| TreeView.MovesKeep | client/src/components/InteractiveTreeView.jsx:154-182 | moves change only the pan, the positions and the drag mark |
| TreeView.MoveFromStart | client/src/components/InteractiveTreeView.jsx:155-181 | every move is measured from the press, so repeating a move changes nothing and a later move overrides an earlier one, except for the drag mark |
| TreeView.MoveChangesOnlyDragged | client/src/components/InteractiveTreeView.jsx:170-181 | a move adds no key and repositions only the dragged node |
| TreeView.UpEnds | client/src/components/InteractiveTreeView.jsx:184-188 | releasing ends any gesture and keeps positions, pan and the drag mark |
| TreeView.DragMark | client/src/components/InteractiveTreeView.jsx:158-160 | after a press on a node, the drag mark is set exactly when some move went more than 5 pixels along an axis |
| TreeView.ClickAfterGesture | client/src/components/InteractiveTreeView.jsx:228-232 | a click after press, moves and release selects the node exactly when no move passed the 5-pixel threshold |
| TreeView.PanGesture | client/src/components/InteractiveTreeView.jsx:162-169 | a background drag leaves the pan at its start plus the last move's offset and moves no node |
| TreeView.DragGesture | client/src/components/InteractiveTreeView.jsx:170-181 | a node drag moves only that node, to its start plus the last offset over the zoom, and keeps the pan |
| TreeView.RelayoutGrows | client/src/components/InteractiveTreeView.jsx:100-141 | relayout never drops a position and keeps every hub backed by a bucket |
| TreeView.NeverThrows | client/src/components/InteractiveTreeView.jsx:108-115 | when every hub has a bucket, relayout cannot hit the undefined `nodes.length` |
| TreeView.DragKeepsHubs | client/src/components/InteractiveTreeView.jsx:174-180 | dragging a positioned key keeps every hub backed by a bucket |
| TreeView.HubStackBacked | client/src/components/InteractiveTreeView.jsx:81-93 | the initial hub stack has a bucket behind every hub |
| TreeView.Mount | client/src/components/InteractiveTreeView.jsx:69-97 | at mount, the layer index and `layers` are computed, and one stacked hub is placed per layer, each with a bucket |
| TreeView.Canvas.constructor | client/src/components/InteractiveTreeView.jsx:23-97 | the view comes up at zoom 0.5 and pan (0, 0), with no gesture, nothing expanded, nothing selected and one hub per layer |
| TreeView.Canvas.ToggleLayer | client/src/components/InteractiveTreeView.jsx:31-36 | clicking a hub toggles its layer and relays out the expanded layers; nothing else changes |
| TreeView.Canvas.ZoomInPressed | client/src/components/InteractiveTreeView.jsx:204 | zoom in steps the zoom; nothing else changes |
| TreeView.Canvas.ZoomOutPressed | client/src/components/InteractiveTreeView.jsx:205 | zoom out steps the zoom; nothing else changes |
| TreeView.Canvas.ResetView | client/src/components/InteractiveTreeView.jsx:206-210 | reset restores zoom 0.5 and pan (0, 0); nothing else changes |
| TreeView.Canvas.CanvasMouseDown | client/src/components/InteractiveTreeView.jsx:212-218 | a background press starts panning from the current pan and clears the drag mark |
| TreeView.Canvas.NodeMouseDown | client/src/components/InteractiveTreeView.jsx:220-226 | a node press starts dragging from the node's position and clears the drag mark |
| TreeView.Canvas.MouseMove | client/src/components/InteractiveTreeView.jsx:154-182 | a window move pans or drags as `Move` says |
| TreeView.Canvas.MouseUp | client/src/components/InteractiveTreeView.jsx:184-188 | a window release ends the gesture |
| TreeView.Canvas.NodeClick | client/src/components/InteractiveTreeView.jsx:228-232 | a click selects the node only when no drag happened and none is under way |
| TreeView.Canvas.CloseModal | client/src/components/InteractiveTreeView.jsx:234 | closing the modal clears the selection only |
| TreeWorkspace.TogglePhase | client/src/components/TreeWorkspace.jsx:16-24 | `togglePhase`; stated by `TogglePhaseEffect` and `TogglePhaseTwice` |
| TreeWorkspace.PhaseTitle | client/src/components/TreeWorkspace.jsx:359 | a phase header; stated by `PhaseTitleDistinct` |
| TreeWorkspace.Phases | client/src/components/TreeWorkspace.jsx:336-386 | the rendered phases; stated by `PhaseOrder`, `PhaseContents` and `TogglePhaseRender` |
| TreeWorkspace.TogglePhaseEffect | client/src/components/TreeWorkspace.jsx:16-24 | a toggle flips the phase's reading, so the first click collapses a fresh phase; other layers' entries are unchanged and no key is repeated |
| TreeWorkspace.TogglePhaseTwice | client/src/components/TreeWorkspace.jsx:16-24 | two toggles of a phase restore the reading of every phase |
| TreeWorkspace.PhaseTitleDistinct | client/src/components/TreeWorkspace.jsx:359 | different layers get different headers ("Root Layer" for 0, "Layer n" otherwise) |
| TreeWorkspace.Cards | client/src/components/TreeWorkspace.jsx:384-386 | the cards are exactly the phase's nodes other than "Transaction Flow" |
| TreeWorkspace.CardsOfPlain | client/src/components/TreeWorkspace.jsx:384-386 | with no synthetic root among the nodes, every node gets a card, in order |
| TreeWorkspace.PhaseOrder | client/src/components/TreeWorkspace.jsx:39-69 | the page lists one phase per layer some walked account has, in strictly ascending order |
| TreeWorkspace.PhaseContents | client/src/components/TreeWorkspace.jsx:336-386 | each phase holds exactly the walked accounts of its layer, in walk order and at least one; it is coloured by position, and shows them all when expanded and none when collapsed |
| TreeWorkspace.OnLayerHas | client/src/components/TreeWorkspace.jsx:49-56 | a layer some node has selects at least one node |
| TreeWorkspace.FreshPageExpanded | client/src/components/TreeWorkspace.jsx:14 | on a fresh page every phase is expanded and shows its cards |
| TreeWorkspace.TogglePhaseRender | client/src/components/TreeWorkspace.jsx:16-24 | clicking a phase header flips that phase between all cards and none, and leaves every other phase as it was |
| AttributeList.FirstPresentSpec | client/src/components/TreeWorkspace.jsx:188-199 | a group finds nothing exactly when none of its names is present; otherwise it yields the value of its first present name |
| AttributeList.Mapped | client/src/components/TreeWorkspace.jsx:188-199 | the first phase of the list; stated by `MappedSpec` and `MappedPresent` |
| AttributeList.MappedSpec | client/src/components/TreeWorkspace.jsx:188-199 | the mapped fields number at most the groups; each is some group's first present value under that group's caption and icon; each group with a present name contributes its field |
| AttributeList.MappedPresent | client/src/components/TreeWorkspace.jsx:190 | every mapped field holds a present value |
| AttributeList.UnderscoresToSpaces | client/src/components/TreeWorkspace.jsx:214 | `replace(/_/g, ' ')` keeps the length and turns exactly the underscores into spaces |
| AttributeList.SpaceBeforeCapitalsSpec | client/src/components/TreeWorkspace.jsx:214 | inserting a space before each capital adds no underscore and leaves every capital after a space |
| AttributeList.SliceSpaced | client/src/components/TreeWorkspace.jsx:214 | every slice of a string with each capital after a space keeps that property |
| AttributeList.Label | client/src/components/TreeWorkspace.jsx:214 | the label derived from an attribute name; stated by `LabelSpec` and `PlainLabel` |
| AttributeList.LabelSpec | client/src/components/TreeWorkspace.jsx:214 | a derived label has no underscore, and every capital in it follows a space |
| AttributeList.NoUnderscoreLeft | client/src/components/TreeWorkspace.jsx:214 | the first replacement leaves no underscore |
| AttributeList.SliceKeeps | client/src/components/TreeWorkspace.jsx:214 | trimming cannot bring back a character the string lacks |
| AttributeList.TrimSlice | client/src/components/TreeWorkspace.jsx:214 | `trim` picks a contiguous slice of its input |
| AttributeList.PlainLabel | client/src/components/TreeWorkspace.jsx:214 | a header with no underscore, capital or white space is its own label |
| AttributeList.PlainSpacing | client/src/components/TreeWorkspace.jsx:214 | a string without capitals gets no space inserted |
| AttributeList.RemainderStepSpec | client/src/components/TreeWorkspace.jsx:202-219 | one remaining key adds its field when it is not internal, has a present value and that value is not already shown; otherwise it adds nothing |
| AttributeList.Remainder | client/src/components/TreeWorkspace.jsx:202-219 | the second phase of the list; stated by `RemainderGrows`, `RemainderSpec` and `RemainderComplete` |
| AttributeList.RemainderGrows | client/src/components/TreeWorkspace.jsx:202-219 | the second phase keeps the mapped fields in front and adds at most one field per key |
| AttributeList.NewEntryExtends | client/src/components/TreeWorkspace.jsx:202-219 | an entry added by the earlier keys stays justified after more keys |
| AttributeList.NewEntryLast | client/src/components/TreeWorkspace.jsx:211-217 | a field appended for a key is justified by that key |
| AttributeList.RemainderSpec | client/src/components/TreeWorkspace.jsx:202-219 | every field the second phase adds comes from a non-internal key with a present value, carries its label and the spreadsheet icon, and repeats no value already shown |
| AttributeList.RemainderComplete | client/src/components/TreeWorkspace.jsx:202-219 | every present value of a non-internal key ends up shown |
| AttributeList.PhasesSpec | client/src/components/TreeWorkspace.jsx:87-222 | for any labelling, the list has at most one field per group plus one per attribute, shows only present values, and shows every present value of a non-internal attribute |
| AttributeList.AttributeFieldsOf | client/src/components/TreeWorkspace.jsx:87-222 | `getAllAttributeValues`; stated by `AttributeFieldsSpec` |
| AttributeList.AttributeFieldsSpec | client/src/components/TreeWorkspace.jsx:87-222 | missing attributes give an empty list; otherwise the list is bounded, holds only present values, and shows every present non-internal value |
| AttributeList.FindPresent | client/src/components/TreeWorkspace.jsx:189-198 | the loop with `break` computes `FirstPresent` |
| AttributeList.MapGroups | client/src/components/TreeWorkspace.jsx:188-199 | the mapping loop computes `Mapped` |
| AttributeList.AnyShows | client/src/components/TreeWorkspace.jsx:204 | `fields.some(f => f.value === v)` is `Shows` |
| AttributeList.AddRemaining | client/src/components/TreeWorkspace.jsx:202-219 | the remainder loop computes `Remainder` with the derived label |
| AttributeList.AttributeFields | client/src/components/InteractiveTreeView.jsx:262-298 | `getAllAttributeValues` of either view computes `AttributeFieldsOf` for that view's table |

## Left out

- Spreadsheet parsing, the file upload, React rendering and scheduling, DOM
  listeners, the CSS transform, `requestAnimationFrame`, console logging, SVG
  path strings and the JSX markup are left out. Icons are opaque tags. The
  body scroll lock and the hover and view-mode state of the list view are
  left out too.
- Floating point. Positions are reals. Zoom is an integer count of tenths,
  from 2 to 20, with reset at 5, so the rounding drift of repeated `+ 0.1`
  is not modelled.
- Cells are integers, strings, `null` or `undefined`. There are no
  fractional numbers, booleans, objects or dates. `===` is value equality on
  those cells.
- HierarchyBuilder.BuildTree: a row that names an account and whose layer is
  NaN, a fraction or an infinity ends the model with `NonIntegerLayer` and
  that row's position. The source goes on: such a node gets layer NaN, 2.5 or
  Infinity, `layerMap` gets the key "NaN", "2.5" or "Infinity", and the sort
  with `a - b` then orders NaN as the engine pleases. The views would also
  misread those keys (`parseInt("2.5")` is 2). None of that is modelled.
- HierarchyBuilder.Build: the same, for any header table.
- ToNumber: numbers are exact. A decimal literal reads as its exact value, an
  integer or not; the rounding to IEEE-754 doubles is left out. So a literal
  with more significant digits than a double holds, or one above about
  1.8e308 (which JavaScript reads as Infinity), gets its exact value, and
  `"1.0000000000000000001"` is not an integer here while JavaScript reads 1.
- IntToString: prints every digit of an integer. JavaScript's `String` of a
  number uses exponent notation from 1e21 on and prints only the shortest
  digits that round-trip above 2^53, so numeric cells and layers are assumed
  to be below 2^53 in magnitude.
- GetNone: `Get` sees an object's own entries only. In JavaScript `o[k]` also
  finds what `Object.prototype` has under `k`. Account ids are assumed not to
  be such names ("constructor", "toString", "__proto__", ...).
- HierarchyBuilder.Link: relies on that assumption. With a prototype name as
  the parent id of a row whose child is known, the guard at buildTree.js:174-175
  passes and line 177 throws a TypeError; the model skips that link. With
  "toString" as a known parent's child id, the source would push a function
  that the views then walk as an account. An id "__proto__" at line 129
  replaces the prototype instead of adding a key, so `totalAccounts` does
  not count it.
- LowerAscii: maps only A to Z. JavaScript's `toLowerCase` uses full Unicode
  case mapping, so "\u212A" (the Kelvin sign) becomes "k" there and stays here.
- ToLowerCase: ASCII only, for the same reason. Full case mapping can also
  change the length ("İ" becomes two code units), so the kept length is a
  property of the model only. Headers with non-ASCII capitals may normalise
  differently from the source.
- LayerIndex.Visit: the depth-first walk takes a fuel bound. Walks of a
  parent cycle, which loop forever in the source, are cut off. `WalkComplete`
  shows the bound is never reached on a ranked index.
- JsObject.EnumOrder: only integer-like string keys are reordered, as
  enumeration does. The number-keyed maps of the views (`layerMap`,
  `expandedLayers`) are in insertion order, and every lemma about them is
  stated up to order.
- TreeView.Canvas.NodeMouseDown: a key without a position gives a NaN start
  in the source. The model then leaves `nodeDragStart` unset, so a later
  move does not reposition anything.
- AttributeList.PhasesSpec: stated for any labelling function. The views use
  `Label`, whose own properties are in `LabelSpec`.
- The `data` prop changing after mount is not modelled. The position map is
  initialised once.

## Findings

| source | as written | input that shows it | evidently intended | confidence | as-written member | corrected member |
|---|---|---|---|---|---|---|
| client/src/components/InteractiveTreeView.jsx:363-367 | the wire filter reads the layer back from `conn.key.split('-')[2]`; for a negative layer the key `wire-node--1-0` splits with an empty third part, `parseInt("")` is NaN, and the wire is never drawn | an account on layer -1, with that layer expanded | draw a wire exactly when its own layer is expanded, whatever the sign of the layer | not executed | Connectors.NegativeLayerWireHidden | Connectors.DrawnWires |
