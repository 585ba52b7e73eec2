/** The client-side boat list: each boat's type (the stored one, or one
    guessed from its name and capacity), the per-type counts shown on the
    filter bar, and the boats shown for the selected filter. */
module BoatsList {
  import opened Wrappers
  import opened Model
  import opened Seqs
  import opened BoatFilter

  /** The six filters that name a boat type. */
  const TYPE_NAMES: seq<string> := ["single", "double", "four", "eight", "recreational", "other"]

  /** A stored type is used when it is a non-empty string. */
  predicate HasStoredType(b: Boat)
  {
    b.boatType.Some? && b.boatType.value != ""
  }

  /** The naming conventions of recreational boats. */
  predicate IsRecreationalName(name: string)
  {
    Contains(name, "xR ") || Contains(name, "R ") || Contains(ToLower(name), "recreational")
  }

  /** The test for "xR " adds nothing: every name containing it contains "R ". */
  lemma RecreationalNameIff(name: string)
    ensures IsRecreationalName(name) <==> Contains(name, "R ") || Contains(ToLower(name), "recreational")
  {
    if Contains(name, "xR ") {
      assert "xR " == "x" + "R " + "";
      ContainsPart(name, "x", "R ", "");
    }
  }

  /** The fallback by seats: 1 single, 2 double, 4 or 5 four, 9 eight, and
      anything else (the 8-seat launches included) other. */
  function CapacityType(capacity: int): (t: string)
    ensures t in TYPE_NAMES && t != "recreational"
    ensures t == "single" <==> capacity == 1
    ensures t == "double" <==> capacity == 2
    ensures t == "four" <==> capacity == 4 || capacity == 5
    ensures t == "eight" <==> capacity == 9
  {
    if capacity == 1 then "single"
    else if capacity == 2 then "double"
    else if capacity == 4 || capacity == 5 then "four"
    else if capacity == 9 then "eight"
    else "other"
  }

  /** `getBoatType`: the stored type, unchecked, when there is one; otherwise
      recreational by name, else by capacity. */
  function BoatType(b: Boat): (t: string)
    ensures HasStoredType(b) ==> t == b.boatType.value
    ensures !HasStoredType(b) ==> t in TYPE_NAMES
    ensures !HasStoredType(b) ==> (t == "recreational" <==> IsRecreationalName(b.name))
    ensures !HasStoredType(b) && !IsRecreationalName(b.name) ==> t == CapacityType(b.capacity)
  {
    if HasStoredType(b) then b.boatType.value
    else if IsRecreationalName(b.name) then "recreational"
    else CapacityType(b.capacity)
  }

  function OfType(t: string): Boat -> bool
  {
    (b: Boat) => BoatType(b) == t
  }

  /** How many boats have type `t`. */
  function TypeCount(boats: seq<Boat>, t: string): nat
  {
    |Filter(boats, OfType(t))|
  }

  /** The count table: `all` starts at the number of boats and each other
      filter at 0. */
  function InitialCounts(n: nat): (counts: map<string, Tally>)
    ensures counts.Keys == set f | f in FILTER_NAMES
  {
    map[ALL := Num(n), "single" := Num(0), "double" := Num(0), "four" := Num(0),
        "eight" := Num(0), "recreational" := Num(0), "other" := Num(0)]
  }

  /** `counts[type]++`: a missing entry is `undefined`, which becomes NaN, and
      NaN stays NaN. */
  function Increment(counts: map<string, Tally>, t: string): (r: map<string, Tally>)
    ensures r.Keys == counts.Keys + {t}
    ensures forall k :: k in counts && k != t ==> r[k] == counts[k]
    ensures t in counts && counts[t].Num? ==> r[t] == Num(counts[t].n + 1)
    ensures t !in counts || counts[t].NotANumber? ==> r[t] == NotANumber
  {
    if t in counts && counts[t].Num? then counts[t := Num(counts[t].n + 1)]
    else counts[t := NotANumber]
  }

  /** One entry of the count table after the boats `counted` were counted
      out of `total`: `all` is `total` plus the boats whose stored type is
      "all"; each type filter is its number of boats; any other stored type
      has an entry, NaN, exactly when some boat carries it. */
  ghost predicate EntryOk(counted: seq<Boat>, total: nat, counts: map<string, Tally>, t: string)
  {
    if t == ALL then t in counts && counts[t] == Num(total + TypeCount(counted, ALL))
    else if t in TYPE_NAMES then t in counts && counts[t] == Num(TypeCount(counted, t))
    else (t in counts <==> TypeCount(counted, t) > 0) && (t in counts ==> counts[t] == NotANumber)
  }

  /** The table after every boat was counted. */
  ghost predicate CountsOf(boats: seq<Boat>, counts: map<string, Tally>)
  {
    forall t :: EntryOk(boats, |boats|, counts, t)
  }

  lemma TypeCountSnoc(boats: seq<Boat>, b: Boat, t: string)
    ensures TypeCount(boats + [b], t) == TypeCount(boats, t) + (if BoatType(b) == t then 1 else 0)
  {
    FilterAppend(boats, [b], OfType(t));
  }

  /** Counting one more boat keeps every entry right. */
  lemma IncrementKeepsEntry(counted: seq<Boat>, b: Boat, total: nat, counts: map<string, Tally>, t: string)
    requires EntryOk(counted, total, counts, t)
    ensures EntryOk(counted + [b], total, Increment(counts, BoatType(b)), t)
  {
    TypeCountSnoc(counted, b, t);
  }

  /** Before any boat is counted the table is the initial one. */
  lemma InitialEntry(total: nat, t: string)
    ensures EntryOk([], total, InitialCounts(total), t)
  {
    assert FILTER_NAMES == [ALL] + TYPE_NAMES;
  }

  /** `boatCounts`: the `forEach` that counts each boat under its type. */
  method CountBoats(boats: seq<Boat>) returns (counts: map<string, Tally>)
    ensures CountsOf(boats, counts)
  {
    counts := InitialCounts(|boats|);
    forall t
      ensures EntryOk([], |boats|, counts, t)
    {
      InitialEntry(|boats|, t);
    }
    var i := 0;
    while i < |boats|
      invariant 0 <= i <= |boats|
      invariant forall t :: EntryOk(boats[..i], |boats|, counts, t)
    {
      var counted := boats[..i + 1];
      var next := Increment(counts, BoatType(boats[i]));
      assert counted == boats[..i] + [boats[i]];
      forall t
        ensures EntryOk(counted, |boats|, next, t)
      {
        IncrementKeepsEntry(boats[..i], boats[i], |boats|, counts, t);
      }
      counts := next;
      i := i + 1;
    }
    assert boats[..i] == boats;
  }

  /** The counts of the types in `names`, added up. */
  function CountOver(boats: seq<Boat>, names: seq<string>): nat
  {
    if names == [] then 0 else TypeCount(boats, names[0]) + CountOver(boats, names[1..])
  }

  ghost predicate Distinct(names: seq<string>)
  {
    forall i, j :: 0 <= i < j < |names| ==> names[i] != names[j]
  }

  lemma TypeNamesDistinct()
    ensures Distinct(TYPE_NAMES) && ALL !in TYPE_NAMES
  {
  }

  /** Over distinct names, the first boat adds one exactly when its type is
      among them. */
  lemma {:induction false} CountOverCons(boats: seq<Boat>, names: seq<string>)
    requires boats != [] && Distinct(names)
    ensures CountOver(boats, names) == CountOver(boats[1..], names) + (if BoatType(boats[0]) in names then 1 else 0)
  {
    if names != [] {
      assert Distinct(names[1..]) by {
        forall i, j | 0 <= i < j < |names[1..]|
          ensures names[1..][i] != names[1..][j]
        {
          assert names[1..][i] == names[i + 1] && names[1..][j] == names[j + 1];
        }
      }
      CountOverCons(boats, names[1..]);
      TypeCountCons(boats, names[0]);
      if BoatType(boats[0]) == names[0] {
        forall k | 0 <= k < |names[1..]|
          ensures names[1..][k] != names[0]
        {
          assert names[1..][k] == names[k + 1];
        }
      }
      assert BoatType(boats[0]) in names <==> BoatType(boats[0]) == names[0] || BoatType(boats[0]) in names[1..];
    }
  }

  lemma {:induction false} CountOverNoBoats(names: seq<string>)
    ensures CountOver([], names) == 0
  {
    if names != [] {
      CountOverNoBoats(names[1..]);
    }
  }

  /** With no stored type outside the six, every boat is counted under
      exactly one of the six types and nothing is counted anywhere else. */
  lemma {:induction false} KnownTypesCountEveryBoat(boats: seq<Boat>)
    requires forall b :: b in boats ==> BoatType(b) in TYPE_NAMES
    ensures TypeCount(boats, ALL) == 0
    ensures CountOver(boats, TYPE_NAMES) == |boats|
    ensures forall t :: t !in FILTER_NAMES ==> TypeCount(boats, t) == 0
  {
    if boats == [] {
      CountOverNoBoats(TYPE_NAMES);
    } else {
      KnownTypesCountEveryBoat(boats[1..]);
      KnownTypeSkipsAll(boats);
      KnownTypeAddsOne(boats);
      forall t | t !in FILTER_NAMES
        ensures TypeCount(boats, t) == 0
      {
        KnownTypeSkipsOthers(boats, t);
      }
    }
  }

  /** A boat of one of the six types adds nothing to the "all" entry. */
  lemma KnownTypeSkipsAll(boats: seq<Boat>)
    requires boats != [] && BoatType(boats[0]) in TYPE_NAMES
    ensures TypeCount(boats, ALL) == TypeCount(boats[1..], ALL)
  {
    TypeNamesDistinct();
    TypeCountCons(boats, ALL);
  }

  /** A boat of one of the six types adds one to the six counts together. */
  lemma KnownTypeAddsOne(boats: seq<Boat>)
    requires boats != [] && BoatType(boats[0]) in TYPE_NAMES
    ensures CountOver(boats, TYPE_NAMES) == CountOver(boats[1..], TYPE_NAMES) + 1
  {
    TypeNamesDistinct();
    CountOverCons(boats, TYPE_NAMES);
  }

  /** A boat of one of the six types adds nothing to a name outside the seven. */
  lemma KnownTypeSkipsOthers(boats: seq<Boat>, t: string)
    requires boats != [] && BoatType(boats[0]) in TYPE_NAMES && t !in FILTER_NAMES
    ensures TypeCount(boats, t) == TypeCount(boats[1..], t)
  {
    assert FILTER_NAMES == [ALL] + TYPE_NAMES;
    TypeCountCons(boats, t);
  }

  lemma TypeCountCons(boats: seq<Boat>, t: string)
    requires boats != []
    ensures TypeCount(boats, t) == TypeCount(boats[1..], t) + (if BoatType(boats[0]) == t then 1 else 0)
  {
    assert boats == [boats[0]] + boats[1..];
    FilterAppend([boats[0]], boats[1..], OfType(t));
  }

  /** `filteredBoats`: every boat for "all", otherwise the boats of that type. */
  function FilteredBoats(boats: seq<Boat>, selected: string): (r: seq<Boat>)
    ensures selected == ALL ==> r == boats
    ensures IsSubseq(r, boats)
    ensures forall b :: b in r <==> b in boats && (selected == ALL || BoatType(b) == selected)
  {
    FilterMembers(boats, OfType(selected));
    FilterIsSubseq(boats, OfType(selected));
    if selected == ALL then
      assert IsSubseq(boats, boats) by { FilterAll(boats, (b: Boat) => true); FilterIsSubseq(boats, (b: Boat) => true); }
      boats
    else Filter(boats, OfType(selected))
  }

  /** The count on a type's button is the number of boats that selecting it
      shows, and the list's empty message appears exactly when that count is
      not displayed. */
  lemma CountMatchesList(boats: seq<Boat>, counts: map<string, Tally>, t: string)
    requires CountsOf(boats, counts) && t in TYPE_NAMES
    ensures t in counts && counts[t] == Num(|FilteredBoats(boats, t)|)
    ensures FilteredBoats(boats, t) == [] <==> DisplayedCount(Some(counts), t).None?
  {
    assert EntryOk(boats, |boats|, counts, t);
  }

  /** Under "all" the button shows the number of listed boats when the stored
      types are all known. */
  lemma AllCountMatchesList(boats: seq<Boat>, counts: map<string, Tally>)
    requires CountsOf(boats, counts)
    requires forall b :: b in boats ==> BoatType(b) in TYPE_NAMES
    ensures ALL in counts && counts[ALL] == Num(|FilteredBoats(boats, ALL)|)
    ensures forall t :: t in counts <==> t in FILTER_NAMES
  {
    KnownTypesCountEveryBoat(boats);
    AllEntry(boats, counts);
    forall t
      ensures t in counts <==> t in FILTER_NAMES
    {
      KeyOfKnownTypes(boats, counts, t);
    }
  }

  /** With no boat stored as "all", the "all" entry is the number of boats. */
  lemma AllEntry(boats: seq<Boat>, counts: map<string, Tally>)
    requires CountsOf(boats, counts) && TypeCount(boats, ALL) == 0
    ensures ALL in counts && counts[ALL] == Num(|boats|)
  {
    assert EntryOk(boats, |boats|, counts, ALL);
  }

  /** With nothing counted outside the seven names, an entry exists exactly
      for those names. */
  lemma KeyOfKnownTypes(boats: seq<Boat>, counts: map<string, Tally>, t: string)
    requires CountsOf(boats, counts)
    requires t !in FILTER_NAMES ==> TypeCount(boats, t) == 0
    ensures t in counts <==> t in FILTER_NAMES
  {
    assert EntryOk(boats, |boats|, counts, t);
    assert FILTER_NAMES == [ALL] + TYPE_NAMES;
  }

  /** The list of the boats page: `selectedFilter`, set through the filter
      bar's `onFilterChange`. */
  class BoatList {
    const boats: seq<Boat>
    var selectedFilter: string

    constructor(boats: seq<Boat>)
      ensures this.boats == boats && selectedFilter == ALL
    {
      this.boats := boats;
      selectedFilter := ALL;
    }

    /** `onFilterChange`. */
    method OnFilterChange(f: string)
      modifies this
      ensures selectedFilter == f
    {
      selectedFilter := f;
    }

    /** The boats rendered, or the empty message when there are none. */
    function Shown(): seq<Boat>
      reads this
    {
      FilteredBoats(boats, selectedFilter)
    }
  }
}
