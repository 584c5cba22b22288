/** What the differ guarantees about its report, stated over whole
    snapshots. */
module DiffProperties {
  import opened Snapshots
  import opened Differ

  // ---------------------------------------------------------------------
  // New products

  /** The new products of a concatenation are those of each part, one after
      the other: the filter keeps the order of `current`. */
  lemma {:induction false} NewItemsAppend(a: Snapshot, b: Snapshot, previousNames: set<string>)
    ensures NewItems(a + b, previousNames) == NewItems(a, previousNames) + NewItems(b, previousNames)
  {
    if b == [] {
      assert a + b == a;
    } else {
      var init, last := b[..|b| - 1], b[|b| - 1];
      assert b == init + [last];
      assert a + b == (a + init) + [last];
      NewItemsAppend(a, init, previousNames);
      NewItemsSnoc(a + init, last, previousNames);
      NewItemsSnoc(init, last, previousNames);
    }
  }

  /** One more product of `current` is kept at the end or dropped. */
  lemma NewItemsSnoc(s: Snapshot, p: Product, previousNames: set<string>)
    ensures NewItems(s + [p], previousNames) ==
      NewItems(s, previousNames) + if p.name in previousNames then [] else [p]
  {
    assert (s + [p])[..|s|] == s;
  }

  /** A new product is exactly a product of `current` whose name occurs
      nowhere in `previous`. */
  lemma NewItemsOfDiff(current: Snapshot, previous: Snapshot, p: Product)
    ensures p in Diff(current, previous).newItems <==>
      p in current && forall j :: 0 <= j < |previous| ==> previous[j].name != p.name
  {
    NewItemsMembers(current, Names(previous), p);
    if p in current && p.name in Names(previous) {
      var j :| 0 <= j < |previous| && previous[j].name == p.name;
    }
  }

  // ---------------------------------------------------------------------
  // Removed names

  /** No name of the current snapshot is ever reported as removed. */
  lemma RemovedNeverCurrent(current: Snapshot, previous: Snapshot, i: int)
    requires 0 <= i < |current|
    ensures current[i].name !in Diff(current, previous).removed
  {
  }

  // ---------------------------------------------------------------------
  // Price changes

  /** When every product of `current` that the map knows has its mapped price,
      there are no price changes. */
  lemma {:induction false} NoChangesWhenPricesAgree(current: Snapshot, previousMap: map<string, Product>)
    requires forall i :: 0 <= i < |current| && current[i].name in previousMap ==>
      previousMap[current[i].name].price == current[i].price
    ensures PriceChanges(current, previousMap) == []
  {
    if current != [] {
      var init := current[..|current| - 1];
      assert forall i :: 0 <= i < |init| ==> init[i] == current[i];
      NoChangesWhenPricesAgree(init, previousMap);
    }
  }

  /** Every change line compares a product of `current` against the LAST entry
      of `previous` with the same name, and the two prices differ. */
  lemma ChangeAgainstLastEntry(current: Snapshot, previous: Snapshot, c: PriceChange)
    requires c in Diff(current, previous).changes
    ensures exists i, j ::
      && 0 <= i < |previous| && 0 <= j < |current|
      && LastWithName(previous, i)
      && previous[i].name == current[j].name
      && previous[i].price != current[j].price
      && c == ChangeOf(current[j], previous[i].price)
  {
    var m := NameMap(previous);
    PriceChangesSound(current, m);
    var j :| 0 <= j < |current| && c == ChangeOf(current[j], c.oldPrice);
    var i0 :| 0 <= i0 < |previous| && previous[i0] == m[c.name];
    var i := LastIndexOfName(previous, c.name, i0);
    assert m[c.name] == previous[i];
    assert previous[i].name == current[j].name && previous[i].price != current[j].price;
    assert c == ChangeOf(current[j], previous[i].price);
  }

  /** The index of the last entry of `s` named `n`, given one at or after `from`. */
  lemma LastIndexOfName(s: Snapshot, n: string, from: int) returns (k: int)
    requires 0 <= from < |s| && s[from].name == n
    ensures from <= k < |s| && s[k].name == n && LastWithName(s, k)
    decreases |s| - from
  {
    if LastWithName(s, from) {
      k := from;
    } else {
      var j :| from < j < |s| && s[j].name == n;
      k := LastIndexOfName(s, n, j);
    }
  }

  /** A product of `current` whose price differs from that of the last entry
      of `previous` with its name is reported with that old price. */
  lemma ChangeReported(current: Snapshot, previous: Snapshot, i: int, j: int)
    requires 0 <= i < |previous| && LastWithName(previous, i)
    requires 0 <= j < |current| && current[j].name == previous[i].name
    requires current[j].price != previous[i].price
    ensures ChangeOf(current[j], previous[i].price) in Diff(current, previous).changes
  {
    PriceChangesComplete(current, NameMap(previous));
  }

  /** When names are unique in `current`, a product whose price equals that of
      the last `previous` entry with its name, or whose name is new, gets no
      change line. */
  lemma NoChangeLine(current: Snapshot, previous: Snapshot, j: int)
    requires UniqueNames(current)
    requires 0 <= j < |current|
    requires current[j].name in Names(previous) ==> NameMap(previous)[current[j].name].price == current[j].price
    ensures forall c :: c in Diff(current, previous).changes ==> c.name != current[j].name
  {
    PriceChangesSound(current, NameMap(previous));
    forall c | c in Diff(current, previous).changes
      ensures c.name != current[j].name
    {
      var k :| 0 <= k < |current| && c == ChangeOf(current[k], c.oldPrice);
    }
  }

  /** A new product never has a price-change line. */
  lemma NewItemsHaveNoChange(current: Snapshot, previous: Snapshot, p: Product, c: PriceChange)
    requires p in Diff(current, previous).newItems
    requires c in Diff(current, previous).changes
    ensures c.name != p.name
  {
    NewItemsMembers(current, Names(previous), p);
    PriceChangesSound(current, NameMap(previous));
  }

  /** The direction is up, and the difference is printed with a plus sign,
      exactly when the new price is higher; otherwise the price went down. */
  lemma ChangeDirection(current: Snapshot, previous: Snapshot, c: PriceChange)
    requires c in Diff(current, previous).changes
    ensures c.diff == c.newPrice - c.oldPrice && c.diff != 0
    ensures c.direction == Up <==> c.diff > 0
    ensures c.direction == Down <==> c.diff < 0
    ensures SignPrefix(c) == "+" <==> c.direction == Up
  {
    PriceChangesSound(current, NameMap(previous));
    var i :| 0 <= i < |current| && c == ChangeOf(current[i], c.oldPrice);
  }

  // ---------------------------------------------------------------------
  // Whole reports

  /** Diffing a snapshot against itself reports nothing new and nothing
      removed; with unique names it reports no price change either, so no
      notification is sent. */
  lemma DiffSelf(s: Snapshot)
    ensures Diff(s, s).newItems == [] && Diff(s, s).removed == {}
    ensures UniqueNames(s) ==> Diff(s, s).changes == [] && !Diff(s, s).HasContent()
  {
    NewItemsNoneKept(s, Names(s));
    if UniqueNames(s) {
      forall i | 0 <= i < |s| && s[i].name in NameMap(s)
        ensures NameMap(s)[s[i].name].price == s[i].price
      {
        UniqueNameMap(s, i);
      }
      NoChangesWhenPricesAgree(s, NameMap(s));
    }
  }

  /** Names must be unique for the self-diff to be empty: two entries with
      one name make each compare against the later one. */
  lemma DuplicateNamesSelfDiff()
    ensures var s := [Product("A", 100, "/a"), Product("A", 200, "/a")];
      Diff(s, s).changes == [PriceChange("A", 200, 100, -100, Down)]
  {
    var s := [Product("A", 100, "/a"), Product("A", 200, "/a")];
    var m := NameMap(s);
    assert m["A"] == s[1] by { assert LastWithName(s, 1); }
    assert s[..1][..0] == [];
    assert PriceChanges(s[..1], m) == [PriceChange("A", 200, 100, -100, Down)];
    assert PriceChanges(s, m) == PriceChanges(s[..1], m) + ChangesFor(s[1], m);
  }

  /** On the first run every current product is new and nothing else is
      reported. */
  lemma FirstRun(current: Snapshot)
    ensures Diff(current, []) == Report(current, {}, [])
  {
    NewItemsAllKept(current, Names([]));
    NoChangesWhenPricesAgree(current, NameMap([]));
  }

  /** A filter that rejects nothing returns its input. */
  lemma {:induction false} NewItemsAllKept(current: Snapshot, previousNames: set<string>)
    requires forall i :: 0 <= i < |current| ==> current[i].name !in previousNames
    ensures NewItems(current, previousNames) == current
  {
    if current != [] {
      var init := current[..|current| - 1];
      NewItemsAllKept(init, previousNames);
      assert current == init + [current[|current| - 1]];
    }
  }

  /** A filter that keeps nothing returns the empty list. */
  lemma NewItemsNoneKept(current: Snapshot, previousNames: set<string>)
    requires forall i :: 0 <= i < |current| ==> current[i].name in previousNames
    ensures NewItems(current, previousNames) == []
  {
  }

  // ---------------------------------------------------------------------
  // One product added, removed or re-priced, anywhere in the listing

  /** The names of a concatenation are the names of its parts. */
  lemma NamesAppend(x: Snapshot, y: Snapshot)
    ensures Names(x + y) == Names(x) + Names(y)
  {
    assert forall p :: p in x + y <==> p in x || p in y;
  }

  /** The price changes of a concatenation are those of each part, one after
      the other. */
  lemma {:induction false} PriceChangesAppend(x: Snapshot, y: Snapshot, previousMap: map<string, Product>)
    ensures PriceChanges(x + y, previousMap) == PriceChanges(x, previousMap) + PriceChanges(y, previousMap)
  {
    if y == [] {
      assert x + y == x;
    } else {
      var init, last := y[..|y| - 1], y[|y| - 1];
      assert y == init + [last];
      assert x + y == (x + init) + [last];
      PriceChangesAppend(x, init, previousMap);
      PriceChangesSnoc(x + init, last, previousMap);
      PriceChangesSnoc(init, last, previousMap);
    }
  }

  /** Against a snapshot with unique names, products that appear in it
      unchanged, or whose name it does not know, give no price change. */
  lemma NoChangesForKnownEntries(current: Snapshot, previous: Snapshot)
    requires UniqueNames(previous)
    requires forall i :: 0 <= i < |current| && current[i].name in Names(previous) ==> current[i] in previous
    ensures PriceChanges(current, NameMap(previous)) == []
  {
    var m := NameMap(previous);
    forall i | 0 <= i < |current| && current[i].name in m
      ensures m[current[i].name].price == current[i].price
    {
      var k :| 0 <= k < |previous| && previous[k] == current[i];
      UniqueNameMap(previous, k);
    }
    NoChangesWhenPricesAgree(current, m);
  }

  /** Inserting one product with a fresh name anywhere into a snapshot with
      unique names reports exactly that product as new, and nothing else. */
  lemma AddedProduct(a: Snapshot, p: Product, b: Snapshot)
    requires UniqueNames(a + b)
    requires p.name !in Names(a + b)
    ensures Diff(a + [p] + b, a + b) == Report([p], {}, [])
  {
    InsertedNames(a, p, b);
    InsertedNewItems(a, p, b, Names(a + b));
    InsertedKnownEntries(a, p, b);
    NoChangesForKnownEntries(a + [p] + b, a + b);
  }

  /** Inserting `p` adds exactly its name. */
  lemma InsertedNames(a: Snapshot, p: Product, b: Snapshot)
    ensures Names(a + [p] + b) == Names(a + b) + {p.name}
  {
    NamesAppend(a, b);
    NamesAppend(a + [p], b);
    NamesAppend(a, [p]);
    assert Names([p]) == {p.name};
  }

  /** When the names of `a` and `b` are known and that of `p` is not, only `p`
      is new. */
  lemma InsertedNewItems(a: Snapshot, p: Product, b: Snapshot, known: set<string>)
    requires forall i :: 0 <= i < |a| ==> a[i].name in known
    requires forall i :: 0 <= i < |b| ==> b[i].name in known
    requires p.name !in known
    ensures NewItems(a + [p] + b, known) == [p]
  {
    NewItemsAppend(a + [p], b, known);
    NewItemsAppend(a, [p], known);
    NewItemsNoneKept(a, known);
    NewItemsNoneKept(b, known);
    NewItemsSnoc([], p, known);
    assert [] + [p] == [p];
  }

  /** Every entry of `a + [p] + b` other than `p` is an entry of `a + b`. */
  lemma InsertedKnownEntries(a: Snapshot, p: Product, b: Snapshot)
    requires p.name !in Names(a + b)
    ensures forall i :: 0 <= i < |a + [p] + b| && (a + [p] + b)[i].name in Names(a + b) ==>
      (a + [p] + b)[i] in a + b
  {
    var current := a + [p] + b;
    forall i | 0 <= i < |current| && current[i].name in Names(a + b)
      ensures current[i] in a + b
    {
      if i < |a| {
        assert current[i] == (a + b)[i];
      } else if i > |a| {
        assert current[i] == (a + b)[i - 1];
      }
    }
  }

  /** Dropping one product anywhere from a snapshot with unique names reports
      exactly its name as removed, and nothing else. */
  lemma RemovedProduct(a: Snapshot, p: Product, b: Snapshot)
    requires UniqueNames(a + [p] + b)
    ensures Diff(a + b, a + [p] + b) == Report([], {p.name}, [])
  {
    var previous, current := a + [p] + b, a + b;
    DroppedEntries(a, p, b);
    InsertedNames(a, p, b);
    NewItemsNoneKept(current, Names(previous));
    assert p.name !in Names(current);
    NoChangesForKnownEntries(current, previous);
  }

  /** With unique names, every entry of `a + b` is an entry of `a + [p] + b`
      with a name other than that of `p`. */
  lemma DroppedEntries(a: Snapshot, p: Product, b: Snapshot)
    requires UniqueNames(a + [p] + b)
    ensures forall i :: 0 <= i < |a + b| ==>
      (a + b)[i] in a + [p] + b && (a + b)[i].name in Names(a + [p] + b) && (a + b)[i].name != p.name
  {
    var previous, current := a + [p] + b, a + b;
    assert previous[|a|] == p;
    forall i | 0 <= i < |current|
      ensures current[i] in previous && current[i].name in Names(previous) && current[i].name != p.name
    {
      var j := if i < |a| then i else i + 1;
      assert current[i] == previous[j];
    }
  }

  /** Changing the price of one product anywhere in a snapshot with unique
      names gives exactly one change line, for that product against its old
      price, and nothing else. */
  lemma PriceMoved(a: Snapshot, q: Product, b: Snapshot, newPrice: int)
    requires UniqueNames(a + [q] + b)
    requires newPrice != q.price
    ensures var moved := q.(price := newPrice);
      Diff(a + [moved] + b, a + [q] + b) == Report([], {}, [ChangeOf(moved, q.price)])
  {
    var moved := q.(price := newPrice);
    var previous, current := a + [q] + b, a + [moved] + b;
    InsertedNames(a, q, b);
    InsertedNames(a, moved, b);
    MovedEntriesKnown(a, q, b, moved);
    NewItemsNoneKept(current, Names(previous));
    MovedChanges(a, q, b, newPrice);
  }

  /** Every entry of `a + [moved] + b` has a name of `a + [q] + b` when
      `moved` has the name of `q`. */
  lemma MovedEntriesKnown(a: Snapshot, q: Product, b: Snapshot, moved: Product)
    requires moved.name == q.name
    ensures forall i :: 0 <= i < |a + [moved] + b| ==> (a + [moved] + b)[i].name in Names(a + [q] + b)
  {
    var previous, current := a + [q] + b, a + [moved] + b;
    forall i | 0 <= i < |current| ensures current[i].name in Names(previous) {
      assert current[i].name == previous[i].name;
    }
  }

  /** The change lines of a re-priced product among unchanged ones. */
  lemma MovedChanges(a: Snapshot, q: Product, b: Snapshot, newPrice: int)
    requires UniqueNames(a + [q] + b)
    requires newPrice != q.price
    ensures var moved := q.(price := newPrice);
      PriceChanges(a + [moved] + b, NameMap(a + [q] + b)) == [ChangeOf(moved, q.price)]
  {
    var moved := q.(price := newPrice);
    var previous := a + [q] + b;
    var m := NameMap(previous);
    forall i | 0 <= i < |a| ensures a[i] in previous {
      assert previous[i] == a[i];
    }
    forall i | 0 <= i < |b| ensures b[i] in previous {
      assert previous[|a| + 1 + i] == b[i];
    }
    NoChangesForKnownEntries(a, previous);
    NoChangesForKnownEntries(b, previous);
    UniqueNameMap(previous, |a|);
    assert previous[|a|] == q;
    PriceChangesSnoc([], moved, m);
    assert [] + [moved] == [moved];
    PriceChangesAppend(a + [moved], b, m);
    PriceChangesAppend(a, [moved], m);
  }
}
