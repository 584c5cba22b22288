/** The snapshot differ of the tracker: which products are new, which names
    disappeared, which prices moved, and whether the run is worth a
    notification. */
module Differ {
  import opened Snapshots

  /** Whether a price went up or down. */
  datatype Direction = Up | Down

  /** One price-change line: old and new price, their signed difference and
      its direction. */
  datatype PriceChange = PriceChange(name: string, oldPrice: int, newPrice: int, diff: int, direction: Direction)

  /** The three sections of a report. Removed names form a set: the order in
      which they are listed is not determined. */
  datatype Report = Report(newItems: Snapshot, removed: set<string>, changes: seq<PriceChange>)
  {
    /** At least one section has something to say. */
    predicate HasContent()
    {
      newItems != [] || removed != {} || changes != []
    }
  }

  /** The lines of the report text, in the order they are appended. `Title` is
      the fixed header every report starts with. */
  datatype Line =
    | Title
    | NewHeading
    | NewEntry(product: Product)
    | RemovedHeading
    | RemovedEntry(name: string)
    | ChangeEntry(change: PriceChange)

  // ---------------------------------------------------------------------
  // The three sections

  /** The products of `current` whose name is not among `previousNames`, in
      the order of `current`. */
  function NewItems(current: Snapshot, previousNames: set<string>): (r: Snapshot)
    ensures |r| <= |current|
  {
    if current == [] then []
    else
      var init, last := current[..|current| - 1], current[|current| - 1];
      NewItems(init, previousNames) + (if last.name in previousNames then [] else [last])
  }

  /** A product is kept exactly when it is in `current` and its name is not
      among `previousNames`. */
  lemma {:induction false} NewItemsMembers(current: Snapshot, previousNames: set<string>, p: Product)
    ensures p in NewItems(current, previousNames) <==> p in current && p.name !in previousNames
  {
    if current != [] {
      var init, last := current[..|current| - 1], current[|current| - 1];
      assert current == init + [last];
      NewItemsMembers(init, previousNames, p);
    }
  }

  /** The names of `previous` that occur nowhere in `current`. */
  function Removed(current: Snapshot, previous: Snapshot): (r: set<string>)
    ensures forall n :: n in r <==>
      (exists i :: 0 <= i < |previous| && previous[i].name == n) &&
      (forall j :: 0 <= j < |current| ==> current[j].name != n)
  {
    Names(previous) - Names(current)
  }

  /** The change line for `p`, whose price used to be `oldPrice`. */
  function ChangeOf(p: Product, oldPrice: int): (c: PriceChange)
    ensures c.name == p.name && c.oldPrice == oldPrice && c.newPrice == p.price
    ensures c.newPrice == c.oldPrice + c.diff
    ensures c.direction == Up <==> c.newPrice > c.oldPrice
  {
    var diff := p.price - oldPrice;
    PriceChange(p.name, oldPrice, p.price, diff, if diff > 0 then Up else Down)
  }

  /** The text put in front of the difference when a `ChangeEntry` is
      rendered as text: a plus sign only for a rise (a fall prints its own
      minus sign). It is derived from `diff` alone, so a `ChangeEntry` that
      carries the change determines it. */
  function SignPrefix(c: PriceChange): (s: string)
  {
    if c.diff > 0 then "+" else ""
  }

  /** The change lines (zero or one) that product `p` contributes. */
  function ChangesFor(p: Product, previousMap: map<string, Product>): seq<PriceChange>
  {
    if p.name in previousMap && previousMap[p.name].price != p.price
    then [ChangeOf(p, previousMap[p.name].price)]
    else []
  }

  /** The price changes of `current` against the name map of the previous
      snapshot, in the order of `current`. */
  function PriceChanges(current: Snapshot, previousMap: map<string, Product>): (r: seq<PriceChange>)
  {
    if current == [] then []
    else PriceChanges(current[..|current| - 1], previousMap) + ChangesFor(current[|current| - 1], previousMap)
  }

  /** Every change line belongs to a product of `current` whose name is in
      the map with a different price, and compares against that mapped price. */
  lemma {:induction false} PriceChangesSound(current: Snapshot, previousMap: map<string, Product>)
    ensures forall c :: c in PriceChanges(current, previousMap) ==>
      && c.name in previousMap
      && c.oldPrice == previousMap[c.name].price
      && c.oldPrice != c.newPrice
      && exists i :: 0 <= i < |current| && c == ChangeOf(current[i], c.oldPrice)
  {
    if current != [] {
      var init, last := current[..|current| - 1], current[|current| - 1];
      PriceChangesSound(init, previousMap);
      forall c | c in PriceChanges(current, previousMap)
        ensures exists i :: 0 <= i < |current| && c == ChangeOf(current[i], c.oldPrice)
      {
        if c in PriceChanges(init, previousMap) {
          var i :| 0 <= i < |init| && c == ChangeOf(init[i], c.oldPrice);
          assert current[i] == init[i];
        } else {
          assert c == ChangeOf(current[|current| - 1], c.oldPrice);
        }
      }
    }
  }

  /** Every product of `current` whose name is in the map with a different
      price yields its change line. */
  lemma {:induction false} PriceChangesComplete(current: Snapshot, previousMap: map<string, Product>)
    ensures forall i :: 0 <= i < |current| ==>
      (current[i].name in previousMap && previousMap[current[i].name].price != current[i].price
       ==> ChangeOf(current[i], previousMap[current[i].name].price) in PriceChanges(current, previousMap))
  {
    if current != [] {
      var init := current[..|current| - 1];
      PriceChangesComplete(init, previousMap);
      forall i | 0 <= i < |init| ensures current[i] == init[i] { }
    }
  }

  /** Extending `current` by one product extends its change list by that
      product's change lines. */
  lemma PriceChangesSnoc(current: Snapshot, p: Product, previousMap: map<string, Product>)
    ensures PriceChanges(current + [p], previousMap) == PriceChanges(current, previousMap) + ChangesFor(p, previousMap)
  {
    assert (current + [p])[..|current|] == current;
  }

  /** The report of `current` against `previous`. */
  function Diff(current: Snapshot, previous: Snapshot): Report
  {
    Report(NewItems(current, Names(previous)), Removed(current, previous), PriceChanges(current, NameMap(previous)))
  }

  // ---------------------------------------------------------------------
  // The report text

  /** One line per new product. */
  function NewEntries(items: Snapshot): (r: seq<Line>)
    ensures |r| == |items|
  {
    if items == [] then [] else NewEntries(items[..|items| - 1]) + [NewEntry(items[|items| - 1])]
  }

  /** One line per removed name. */
  function RemovedEntries(names: seq<string>): (r: seq<Line>)
    ensures |r| == |names|
  {
    if names == [] then [] else RemovedEntries(names[..|names| - 1]) + [RemovedEntry(names[|names| - 1])]
  }

  /** One line per price change. */
  function ChangeEntries(changes: seq<PriceChange>): (r: seq<Line>)
    ensures |r| == |changes|
  {
    if changes == [] then [] else ChangeEntries(changes[..|changes| - 1]) + [ChangeEntry(changes[|changes| - 1])]
  }

  /** Line `i` of `NewEntries(items)` is the entry of `items[i]`. */
  lemma {:induction false} NewEntriesAt(items: Snapshot)
    ensures forall i :: 0 <= i < |items| ==> NewEntries(items)[i] == NewEntry(items[i])
  {
    if items != [] {
      var init := items[..|items| - 1];
      NewEntriesAt(init);
      forall i | 0 <= i < |init| ensures items[i] == init[i] { }
    }
  }

  /** Line `i` of `RemovedEntries(names)` is the entry of `names[i]`. */
  lemma {:induction false} RemovedEntriesAt(names: seq<string>)
    ensures forall i :: 0 <= i < |names| ==> RemovedEntries(names)[i] == RemovedEntry(names[i])
  {
    if names != [] {
      var init := names[..|names| - 1];
      RemovedEntriesAt(init);
      forall i | 0 <= i < |init| ensures names[i] == init[i] { }
    }
  }

  /** Line `i` of `ChangeEntries(changes)` is the entry of `changes[i]`. */
  lemma {:induction false} ChangeEntriesAt(changes: seq<PriceChange>)
    ensures forall i :: 0 <= i < |changes| ==> ChangeEntries(changes)[i] == ChangeEntry(changes[i])
  {
    if changes != [] {
      var init := changes[..|changes| - 1];
      ChangeEntriesAt(init);
      forall i | 0 <= i < |init| ensures changes[i] == init[i] { }
    }
  }

  /** The new-products section: a heading and one line per new product, or
      nothing at all when there is none. */
  function NewSection(items: Snapshot): (r: seq<Line>)
    ensures |r| == if items == [] then 0 else 1 + |items|
    ensures items != [] ==> r[0] == NewHeading
  {
    if items == [] then [] else [NewHeading] + NewEntries(items)
  }

  /** The removed-products section for names listed in `order`. */
  function RemovedSection(order: seq<string>): (r: seq<Line>)
    ensures |r| == if order == [] then 0 else 1 + |order|
    ensures order != [] ==> r[0] == RemovedHeading
  {
    if order == [] then [] else [RemovedHeading] + RemovedEntries(order)
  }

  /** The lines of the report for `r`, listing its removed names in `order`. */
  function Render(r: Report, order: seq<string>): (text: seq<Line>)
    ensures |text| >= 1 && text[0] == Title
  {
    [Title] + NewSection(r.newItems) + RemovedSection(order) + ChangeEntries(r.changes)
  }

  /** `order` lists every element of `names` exactly once. */
  predicate Enumerates(order: seq<string>, names: set<string>)
  {
    && (forall i, j :: 0 <= i < j < |order| ==> order[i] != order[j])
    && (forall i :: 0 <= i < |order| ==> order[i] in names)
    && (forall n :: n in names ==> n in order)
  }

  lemma EnumeratesSnoc(order: seq<string>, names: set<string>, n: string)
    requires Enumerates(order, names) && n !in names
    ensures Enumerates(order + [n], names + {n})
  {
  }

  /** The report text is more than its header exactly when some section has
      content, whatever order the removed names are listed in. */
  lemma NotifyIffContent(r: Report, order: seq<string>)
    requires Enumerates(order, r.removed)
    ensures Render(r, order) != [Title] <==> r.HasContent()
  {
    if r.removed != {} {
      var n :| n in r.removed;
      assert n in order;
    }
    if order != [] {
      assert order[0] in r.removed;
    }
    assert |Render(r, order)| == 1 + |NewSection(r.newItems)| + |RemovedSection(order)| + |r.changes|;
  }

  /** One more product adds its line at the end. */
  lemma NewEntriesStep(items: Snapshot, i: int)
    requires 0 <= i < |items|
    ensures NewEntries(items[..i + 1]) == NewEntries(items[..i]) + [NewEntry(items[i])]
  {
    assert items[..i + 1][..i] == items[..i];
  }

  /** Appends the new-products section, one line per new product. */
  method AppendNewSection(report: seq<Line>, newItems: Snapshot) returns (extended: seq<Line>)
    ensures extended == report + NewSection(newItems)
  {
    extended := report;
    if newItems != [] {
      extended := extended + [NewHeading];
      ghost var headed := extended;
      for i := 0 to |newItems|
        invariant extended == headed + NewEntries(newItems[..i])
      {
        NewEntriesStep(newItems, i);
        extended := extended + [NewEntry(newItems[i])];
      }
      assert newItems[..|newItems|] == newItems;
      assert extended == report + ([NewHeading] + NewEntries(newItems));
    }
  }

  /** One more removed name adds its line at the end. */
  lemma RemovedEntriesSnoc(order: seq<string>, name: string)
    ensures RemovedEntries(order + [name]) == RemovedEntries(order) + [RemovedEntry(name)]
  {
    assert (order + [name])[..|order|] == order;
  }

  /** Appends the removed-products section, or nothing when no name was
      removed; the ghost `order` records the order the names were listed in. */
  method AppendRemovedSection(report: seq<Line>, removedItems: set<string>)
    returns (extended: seq<Line>, ghost order: seq<string>)
    ensures Enumerates(order, removedItems)
    ensures extended == report + RemovedSection(order)
  {
    if removedItems == {} {
      extended, order := report, [];
    } else {
      extended, order := AppendRemovedEntries(report + [RemovedHeading], removedItems);
      ghost var n :| n in removedItems;
      assert n in order;
    }
  }

  /** Appends one line per name of `removedItems`, taking the names out of
      the set one at a time in no particular order. */
  method AppendRemovedEntries(report: seq<Line>, removedItems: set<string>)
    returns (extended: seq<Line>, ghost order: seq<string>)
    ensures Enumerates(order, removedItems)
    ensures extended == report + RemovedEntries(order)
  {
    extended, order := report, [];
    var rest := removedItems;
    while rest != {}
      invariant rest <= removedItems
      invariant Enumerates(order, removedItems - rest)
      invariant extended == report + RemovedEntries(order)
      decreases rest
    {
      var name :| name in rest;
      EnumeratesSnoc(order, removedItems - rest, name);
      RemovedEntriesSnoc(order, name);
      extended := extended + [RemovedEntry(name)];
      order := order + [name];
      assert removedItems - (rest - {name}) == (removedItems - rest) + {name};
      rest := rest - {name};
    }
    assert removedItems - rest == removedItems;
  }

  /** The price changes of one more product of `current`. */
  lemma PriceChangesStep(current: Snapshot, i: int, previousMap: map<string, Product>)
    requires 0 <= i < |current|
    ensures PriceChanges(current[..i + 1], previousMap) ==
      PriceChanges(current[..i], previousMap) + ChangesFor(current[i], previousMap)
  {
    assert current[..i + 1][..i] == current[..i];
  }

  /** The lines of one more product's change lines come after the others. */
  lemma ChangeEntriesStep(done: seq<PriceChange>, p: Product, previousMap: map<string, Product>)
    ensures ChangeEntries(done + ChangesFor(p, previousMap)) ==
      ChangeEntries(done) + ChangeEntries(ChangesFor(p, previousMap))
  {
    if p.name in previousMap && previousMap[p.name].price != p.price {
      var c := ChangeOf(p, previousMap[p.name].price);
      assert (done + [c])[..|done|] == done && (done + [c])[|done|] == c;
    } else {
      assert done + ChangesFor(p, previousMap) == done;
    }
  }

  /** One round of the price-change loop: appending the lines of
      `current[i]` to the lines of `current[..i]` gives those of
      `current[..i + 1]`. */
  lemma AppendPriceChangesStep(report: seq<Line>, current: Snapshot, i: int, previousMap: map<string, Product>)
    requires 0 <= i < |current|
    ensures report + ChangeEntries(PriceChanges(current[..i], previousMap)) + ChangeEntries(ChangesFor(current[i], previousMap)) ==
      report + ChangeEntries(PriceChanges(current[..i + 1], previousMap))
  {
    PriceChangesStep(current, i, previousMap);
    ChangeEntriesStep(PriceChanges(current[..i], previousMap), current[i], previousMap);
  }

  /** Appends the change line of `p` when its name is in `previousMap` with a
      different price, and nothing otherwise. */
  method AppendChangeOf(report: seq<Line>, p: Product, previousMap: map<string, Product>)
    returns (extended: seq<Line>)
    ensures extended == report + ChangeEntries(ChangesFor(p, previousMap))
  {
    extended := report;
    if p.name in previousMap {
      var oldPrice := previousMap[p.name].price;
      if oldPrice != p.price {
        extended := extended + [ChangeEntry(ChangeOf(p, oldPrice))];
      }
    }
  }

  /** Appends one line for each product of `current` whose name is in
      `previousMap` with a different price, in the order of `current`. */
  method AppendPriceChanges(report: seq<Line>, current: Snapshot, previousMap: map<string, Product>)
    returns (extended: seq<Line>)
    ensures extended == report + ChangeEntries(PriceChanges(current, previousMap))
  {
    extended := report;
    for i := 0 to |current|
      invariant extended == report + ChangeEntries(PriceChanges(current[..i], previousMap))
    {
      AppendPriceChangesStep(report, current, i, previousMap);
      extended := AppendChangeOf(extended, current[i], previousMap);
    }
    assert current[..|current|] == current;
  }

  /** Builds the report text section by section and decides whether to send
      it: only when the text is more than its header. */
  method CompareAndNotify(current: Snapshot, previous: Snapshot)
    returns (report: seq<Line>, notify: bool, ghost removedOrder: seq<string>)
    ensures Enumerates(removedOrder, Diff(current, previous).removed)
    ensures report == Render(Diff(current, previous), removedOrder)
    ensures notify <==> Diff(current, previous).HasContent()
  {
    report := [Title];
    var previousMap := NameMap(previous);
    var currentNames := Names(current);
    var previousNames := Names(previous);

    var newItems := NewItems(current, previousNames);
    report := AppendNewSection(report, newItems);

    var removedItems := previousNames - currentNames;
    report, removedOrder := AppendRemovedSection(report, removedItems);

    report := AppendPriceChanges(report, current, previousMap);

    NotifyIffContent(Diff(current, previous), removedOrder);
    notify := report != [Title];
  }
}
