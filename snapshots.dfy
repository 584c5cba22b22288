/** Products and snapshots: the records the tracker scrapes on every run and
    keeps from the previous one. Prices are whole euro cents so that price
    comparison and differences are exact. */
module Snapshots {

  /** One product listing: its name (the key within a snapshot), its price in
      cents and its absolute link. */
  datatype Product = Product(name: string, price: int, link: string)

  /** The listing at one point in time, in page order. */
  type Snapshot = seq<Product>

  /** The set of names occurring in a snapshot (the set comprehensions of
      compare_and_notify). */
  function Names(s: Snapshot): (r: set<string>)
  {
    set p | p in s :: p.name
  }

  /** True when no later entry of `s` carries the same name as `s[i]`. */
  predicate LastWithName(s: Snapshot, i: int)
    requires 0 <= i < |s|
  {
    forall j :: i < j < |s| ==> s[j].name != s[i].name
  }

  /** No two entries of the snapshot share a name. */
  predicate UniqueNames(s: Snapshot)
  {
    forall i, j :: 0 <= i < j < |s| ==> s[i].name != s[j].name
  }

  /** The name-to-product dictionary built from a snapshot by inserting its
      entries in order, so that a later entry with a name overwrites an
      earlier one: every name of the snapshot maps to its LAST entry. */
  function NameMap(s: Snapshot): (m: map<string, Product>)
    ensures m.Keys == Names(s)
    ensures forall n :: n in m ==> m[n] in s && m[n].name == n
    ensures forall i {:trigger LastWithName(s, i)} :: 0 <= i < |s| && LastWithName(s, i) ==> m[s[i].name] == s[i]
  {
    if s == [] then map[]
    else
      var init, last := s[..|s| - 1], s[|s| - 1];
      var earlier := NameMap(init);
      InsertLast(init, last, earlier);
      assert s == init + [last];
      earlier[last.name := last]
  }

  /** Inserting the entry `last` into a map that sends every name of `init`
      to its last entry gives a map that does the same for `init + [last]`. */
  lemma InsertLast(init: Snapshot, last: Product, m: map<string, Product>)
    requires m.Keys == Names(init)
    requires forall n :: n in m ==> m[n] in init && m[n].name == n
    requires forall i {:trigger LastWithName(init, i)} :: 0 <= i < |init| && LastWithName(init, i) ==> m[init[i].name] == init[i]
    ensures var s, m' := init + [last], m[last.name := last];
      && m'.Keys == Names(s)
      && (forall n :: n in m' ==> m'[n] in s && m'[n].name == n)
      && (forall i {:trigger LastWithName(s, i)} :: 0 <= i < |s| && LastWithName(s, i) ==> m'[s[i].name] == s[i])
  {
    var s, m' := init + [last], m[last.name := last];
    assert Names(s) == Names(init) + {last.name};
    forall i | 0 <= i < |s| && LastWithName(s, i)
      ensures m'[s[i].name] == s[i]
    {
      if i < |init| {
        assert s[i] == init[i];
        forall j | i < j < |init| ensures init[j].name != init[i].name {
          assert s[j] == init[j];
        }
        assert LastWithName(init, i);
        assert s[|init|] == last;
      }
    }
  }

  /** With unique names every entry is the one its name maps to. */
  lemma UniqueNameMap(s: Snapshot, i: int)
    requires UniqueNames(s)
    requires 0 <= i < |s|
    ensures s[i].name in NameMap(s) && NameMap(s)[s[i].name] == s[i]
  {
    assert LastWithName(s, i);
  }
}
