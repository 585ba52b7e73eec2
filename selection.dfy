/** The checkbox selections of the admin pages: `toggle…` flips one id in a
    list of selected ids (`prev.includes(id) ? prev.filter(x => x !== id) :
    [...prev, id]`), and the edit and select-all handlers load a selection from
    a list of rows. */
module Selection {
  import opened Model
  import opened Seqs

  predicate NoDuplicates(s: seq<Id>)
  {
    forall i, j :: 0 <= i < j < |s| ==> s[i] != s[j]
  }

  function NotId(id: Id): Id -> bool
  {
    (x: Id) => x != id
  }

  /** Removes every occurrence of a selected id, or appends an unselected one. */
  function Toggle(selected: seq<Id>, id: Id): (r: seq<Id>)
    ensures id in r <==> id !in selected
    ensures forall x :: x != id ==> (x in r <==> x in selected)
    ensures id !in selected ==> r == selected + [id]
  {
    FilterMembers(selected, NotId(id));
    if id in selected then Filter(selected, NotId(id)) else selected + [id]
  }

  /** The other ids keep their order: only `id` is added or taken out. */
  lemma ToggleKeepsOthersInOrder(selected: seq<Id>, id: Id)
    ensures Filter(Toggle(selected, id), NotId(id)) == Filter(selected, NotId(id))
  {
    if id in selected {
      var kept := Filter(selected, NotId(id));
      FilterAll(kept, NotId(id));
    } else {
      FilterAppend(selected, [id], NotId(id));
      assert Filter([id], NotId(id)) == [];
    }
  }

  /** Toggling the same id twice restores which ids are selected. */
  lemma ToggleTwiceRestoresMembership(selected: seq<Id>, id: Id)
    ensures forall x :: x in Toggle(Toggle(selected, id), id) <==> x in selected
  {
  }

  /** Toggling an unselected id twice gives back the very same list. */
  lemma ToggleTwiceOnUnselected(selected: seq<Id>, id: Id)
    requires id !in selected
    ensures Toggle(Toggle(selected, id), id) == selected
  {
    var once := selected + [id];
    assert id in once;
    FilterAppend(selected, [id], NotId(id));
    assert Filter([id], NotId(id)) == [];
    FilterAll(selected, NotId(id));
  }

  lemma {:induction false} FilterKeepsNoDuplicates(s: seq<Id>, p: Id -> bool)
    requires NoDuplicates(s)
    ensures NoDuplicates(Filter(s, p))
  {
    if s != [] {
      FilterKeepsNoDuplicates(s[1..], p);
      FilterMembers(s[1..], p);
      assert s[0] !in s[1..];
    }
  }

  /** Toggling keeps a selection free of duplicates. */
  lemma ToggleKeepsNoDuplicates(selected: seq<Id>, id: Id)
    requires NoDuplicates(selected)
    ensures NoDuplicates(Toggle(selected, id))
  {
    if id in selected {
      FilterKeepsNoDuplicates(selected, NotId(id));
    }
  }

  /** `rows.map(row => row.id)`. */
  function IdsOf<T>(rows: seq<T>, idOf: T -> Id): (r: seq<Id>)
    ensures |r| == |rows|
    ensures forall i :: 0 <= i < |rows| ==> r[i] == idOf(rows[i])
  {
    seq(|rows|, i requires 0 <= i < |rows| => idOf(rows[i]))
  }

  /** A list of rows with distinct ids gives a duplicate-free selection. */
  lemma IdsOfDistinctRows<T>(rows: seq<T>, idOf: T -> Id)
    requires forall i, j :: 0 <= i < j < |rows| ==> idOf(rows[i]) != idOf(rows[j])
    ensures NoDuplicates(IdsOf(rows, idOf))
  {
  }
}
