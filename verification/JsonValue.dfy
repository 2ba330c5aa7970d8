/**
 The value tree of the JSON codec (json/json_value.cpp), in its default build where arrays and
 objects are kept in ordered maps.
 */
module JsonValue {
  import opened CText

  const MAX_INT := 0x7FFF_FFFF
  const MIN_INT := -0x8000_0000
  const MAX_UINT := 0xFFFF_FFFF

  /** An array is an index map with holes: `slots[i]` tells whether index i has an entry, and what
      operator[](i) reads there (null when it has none).  An object is the ordered content of its
      map. */
  datatype Value =
    | Null
    | Int(i: int)
    | UInt(u: int)
    | Real(d: real)
    | Str(s: string)
    | Bool(b: bool)
    | Array(slots: seq<Slot>)
    | Object(members: seq<Member>)

  datatype Slot = Slot(present: bool, value: Value)

  datatype Member = Member(name: string, value: Value)

  /** What every value the library builds satisfies: integers fit their C++ types, the last slot
      of an array is filled (its size is the highest index plus one), and member names are NUL-free
      and strictly increasing. */
  ghost predicate WellFormed(v: Value)
    decreases v
  {
    match v
    case Int(i) => MIN_INT <= i <= MAX_INT
    case UInt(u) => 0 <= u <= MAX_UINT
    case Array(slots) =>
      (slots != [] ==> slots[|slots| - 1].present) && WellFormedSlots(slots)
    case Object(members) => Increasing(members) && WellFormedMembers(members)
    case _ => true
  }

  ghost predicate WellFormedSlots(slots: seq<Slot>)
    decreases slots
  {
    slots != [] ==>
      && (!slots[0].present ==> slots[0].value == Null)
      && (assert slots[0].value < slots[0]; WellFormed(slots[0].value))
      && WellFormedSlots(slots[1..])
  }

  ghost predicate WellFormedMembers(members: seq<Member>)
    decreases members
  {
    members != [] ==>
      && '\0' !in members[0].name
      && WellFormed(members[0].value)
      && WellFormedMembers(members[1..])
  }

  ghost predicate Increasing(members: seq<Member>) {
    forall i, j | 0 <= i < j < |members| :: Less(members[i].name, members[j].name)
  }

  // No doubles anywhere in the tree.
  ghost predicate RealFree(v: Value)
    decreases v
  {
    match v
    case Real(_) => false
    case Array(slots) => RealFreeSlots(slots)
    case Object(members) => RealFreeMembers(members)
    case _ => true
  }

  ghost predicate RealFreeSlots(slots: seq<Slot>)
    decreases slots
  {
    slots != [] ==>
      assert slots[0].value < slots[0];
      RealFree(slots[0].value) && RealFreeSlots(slots[1..])
  }

  ghost predicate RealFreeMembers(members: seq<Member>)
    decreases members
  {
    members != [] ==> RealFree(members[0].value) && RealFreeMembers(members[1..])
  }

  const HOLE := Slot(false, Null)

  /** Non-const operator[](index) followed by an assignment through the reference. */
  function PutSlot(slots: seq<Slot>, index: nat, v: Value): (r: seq<Slot>)
    ensures index < |r| && r[index] == Slot(true, v)
    ensures |r| == if index < |slots| then |slots| else index + 1
    ensures forall k | 0 <= k < |r| && k != index :: r[k] == if k < |slots| then slots[k] else HOLE
  {
    if index < |slots| then slots[index := Slot(true, v)]
    else slots + seq(index - |slots|, _ => HOLE) + [Slot(true, v)]
  }

  // std::map::lower_bound
  function LowerBound(members: seq<Member>, name: string): (j: nat)
    ensures j <= |members|
    ensures forall k | 0 <= k < j :: Less(members[k].name, name)
    ensures j < |members| ==> !Less(members[j].name, name)
  {
    if members == [] || !Less(members[0].name, name) then 0
    else 1 + LowerBound(members[1..], name)
  }

  // The value the reference returned by resolveReference(name) refers to: null when just inserted.
  function GetMember(members: seq<Member>, name: string): Value {
    var j := LowerBound(members, name);
    if j < |members| && members[j].name == name then members[j].value else Null
  }

  /** resolveReference(name) followed by an assignment through the reference. */
  function PutMember(members: seq<Member>, name: string, v: Value): seq<Member> {
    var j := LowerBound(members, name);
    if j < |members| && members[j].name == name then members[j := Member(name, v)]
    else members[..j] + [Member(name, v)] + members[j..]
  }

  /** Insertion keeps the map ordered, and every other name keeps its value. */
  lemma {:induction false} PutMemberIncreasing(members: seq<Member>, name: string, v: Value)
    requires Increasing(members)
    ensures Increasing(PutMember(members, name, v))
    ensures GetMember(PutMember(members, name, v), name) == v
    ensures forall other: string | other != name ::
              GetMember(PutMember(members, name, v), other) == GetMember(members, other)
  {
    var j := LowerBound(members, name);
    var r := PutMember(members, name, v);
    LessIrreflexive(name);
    if j < |members| && members[j].name == name {
      forall a, b | 0 <= a < b < |r| ensures Less(r[a].name, r[b].name) {}
    } else {
      if j < |members| { LessTotal(name, members[j].name); }
      forall a, b | 0 <= a < b < |r| ensures Less(r[a].name, r[b].name) {
        if a == j && b > j + 1 {
          assert r[j + 1] == members[j];
          LessTransitive(name, members[j].name, r[b].name);
        }
      }
    }
    assert r[j] == Member(name, v);
    LowerBoundIs(r, name, j);
    forall other: string | other != name ensures GetMember(r, other) == GetMember(members, other) {
      OthersStay(members, name, v, other);
    }
  }

  // A name is found where it is.
  lemma {:induction false} GetIs(members: seq<Member>, name: string, k: nat)
    requires Increasing(members) && k < |members| && members[k].name == name
    ensures GetMember(members, name) == members[k].value
  {
    LessIrreflexive(name);
    LowerBoundIs(members, name, k);
  }

  lemma {:induction false} OthersStay(members: seq<Member>, name: string, v: Value, other: string)
    requires Increasing(members) && Increasing(PutMember(members, name, v)) && other != name
    ensures GetMember(PutMember(members, name, v), other) == GetMember(members, other)
  {
    hide Less, LowerBound, Increasing;
    var j, r := LowerBound(members, name), PutMember(members, name, v);
    var i, k := LowerBound(members, other), LowerBound(r, other);
    if i < |members| && members[i].name == other {
      GetIs(r, other, if i < j || |r| == |members| then i else i + 1);
    } else if k < |r| && r[k].name == other {
      var m := if k < j || |r| == |members| then k else k - 1;
      assert members[m] == r[k];
      GetIs(members, other, m);
    }
  }

  lemma {:induction false} LowerBoundIs(members: seq<Member>, name: string, j: nat)
    requires j <= |members|
    requires forall k | 0 <= k < j :: Less(members[k].name, name)
    requires j < |members| ==> !Less(members[j].name, name)
    ensures LowerBound(members, name) == j
  {
    if j > 0 {
      LowerBoundIs(members[1..], name, j - 1);
    }
  }
}
