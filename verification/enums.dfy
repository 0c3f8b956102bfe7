/**
 * The `Enum` base class: a class whose static properties form a two-way table,
 * `ACTIVE = 1` in one direction and `1 = 'Active'` in the other.
 *
 * Only the numeric-keyed half is ever enumerated (its values are the strings),
 * and JavaScript lists integer-like keys in ascending order, so `names` is kept
 * sorted by id.
 */
module Enums {
  import opened Wrappers
  import opened JsText

  /** A reverse entry `static 1 = 'Active'`. */
  datatype Named = Named(id: nat, name: string)

  /** A forward entry `static ACTIVE = 1`. */
  datatype Member = Member(key: string, id: nat)

  datatype EnumClass = EnumClass(members: seq<Member>, names: seq<Named>)

  /** One element of `getAll()`. */
  datatype Listed = Listed(title: string, id: nat)

  /** Object keys are unique and enumerated in ascending order. */
  predicate SortedIds(names: seq<Named>) {
    forall i, j :: 0 <= i < j < |names| ==> names[i].id < names[j].id
  }

  /** No two reverse names are equal ignoring case. */
  predicate DistinctNames(names: seq<Named>) {
    forall i, j :: 0 <= i < j < |names| ==> !EqualsIgnoreCase(names[i].name, names[j].name)
  }

  /** Every forward key has a reverse name for its id, and the two spellings agree ignoring case. */
  predicate Agrees(e: EnumClass) {
    && (forall m :: m in e.members ==> exists n :: n in e.names && n.id == m.id && EqualsIgnoreCase(n.name, m.key))
    && (forall n :: n in e.names ==> exists m :: m in e.members && m.id == n.id)
  }

  /** Forward and reverse entries listed side by side: the i-th key and the i-th name share an id. */
  predicate Aligned(e: EnumClass) {
    && |e.members| == |e.names|
    && forall i :: 0 <= i < |e.names| ==>
         e.members[i].id == e.names[i].id && EqualsIgnoreCase(e.names[i].name, e.members[i].key)
  }

  lemma AlignedAgrees(e: EnumClass)
    requires Aligned(e)
    ensures Agrees(e)
  {
    forall m | m in e.members
      ensures exists n :: n in e.names && n.id == m.id && EqualsIgnoreCase(n.name, m.key)
    {
      var i :| 0 <= i < |e.members| && e.members[i] == m;
      assert e.names[i] in e.names;
    }
    forall n | n in e.names
      ensures exists m :: m in e.members && m.id == n.id
    {
      var i :| 0 <= i < |e.names| && e.names[i] == n;
      assert e.members[i] in e.members;
    }
  }

  predicate WellFormed(e: EnumClass) {
    SortedIds(e.names) && DistinctNames(e.names) && Agrees(e)
  }

  function NameIn(names: seq<Named>, id: int): (r: Option<string>)
    ensures r.None? <==> forall i :: 0 <= i < |names| ==> names[i].id != id
    ensures r.Some? ==> Named(id, r.value) in names
  {
    if names == [] then None
    else if names[0].id == id then Some(names[0].name)
    else NameIn(names[1..], id)
  }

  /** `getById(id)`: the name registered under a numeric id, `undefined` when there is none. */
  function GetById(e: EnumClass, id: int): Option<string> {
    NameIn(e.names, id)
  }

  /** `Enum.ACTIVE`-style access: the id a forward key stands for. */
  function Const(e: EnumClass, key: string): (r: Option<nat>)
    ensures r.None? <==> forall m :: m in e.members ==> m.key != key
    ensures r.Some? ==> Member(key, r.value) in e.members
    decreases |e.members|
  {
    if e.members == [] then None
    else if e.members[0].key == key then Some(e.members[0].id)
    else Const(EnumClass(e.members[1..], e.names), key)
  }

  function FirstNamed(names: seq<Named>, name: string): (r: Option<nat>)
    ensures r.None? <==> forall i :: 0 <= i < |names| ==> !EqualsIgnoreCase(names[i].name, name)
    ensures r.Some? ==> exists i :: 0 <= i < |names| && names[i].id == r.value && EqualsIgnoreCase(names[i].name, name)
                          && forall j :: 0 <= j < i ==> !EqualsIgnoreCase(names[j].name, name)
  {
    if names == [] then None
    else if EqualsIgnoreCase(names[0].name, name) then Some(names[0].id)
    else
      var r := FirstNamed(names[1..], name);
      assert r.Some? ==> exists i :: 0 <= i < |names[1..]| && names[1..][i].id == r.value && EqualsIgnoreCase(names[1..][i].name, name)
                          && forall j :: 0 <= j < i ==> !EqualsIgnoreCase(names[1..][j].name, name);
      r
  }

  /** `getByName(name)`: the id of the first name equal to `name` ignoring case, in enumeration order. */
  function GetByName(e: EnumClass, name: string): Option<nat> {
    FirstNamed(e.names, name)
  }

  /** `getAll()`: one `{title, id}` per numeric key, in enumeration order. */
  function GetAll(e: EnumClass): (r: seq<Listed>)
    requires SortedIds(e.names)
    ensures |r| == |e.names|
    ensures forall i :: 0 <= i < |r| ==> r[i].id == e.names[i].id && GetById(e, r[i].id) == Some(r[i].title)
  {
    seq(|e.names|, i requires 0 <= i < |e.names| => Listed(e.names[i].name, e.names[i].id))
  }

  lemma {:induction false} NameInAt(names: seq<Named>, i: nat)
    requires SortedIds(names) && i < |names|
    ensures NameIn(names, names[i].id) == Some(names[i].name)
  {
    if i > 0 {
      assert names[0].id < names[i].id;
      NameInAt(names[1..], i - 1);
    }
  }

  /** With distinct names, looking a registered id's name back up yields that id. */
  lemma GetByNameOfGetById(e: EnumClass, id: int)
    requires WellFormed(e)
    requires GetById(e, id).Some?
    ensures GetByName(e, GetById(e, id).value) == Some(id)
  {
    var name := GetById(e, id).value;
    var k :| 0 <= k < |e.names| && e.names[k] == Named(id, name);
    var r := GetByName(e, name);
    var i :| 0 <= i < |e.names| && e.names[i].id == r.value && EqualsIgnoreCase(e.names[i].name, name)
               && forall j :: 0 <= j < i ==> !EqualsIgnoreCase(e.names[j].name, name);
    if i < k {
      assert !EqualsIgnoreCase(e.names[i].name, e.names[k].name);
    } else if k < i {
      assert !EqualsIgnoreCase(e.names[k].name, name);
    }
  }

  /** Conversely, a name found by `getByName` is the registered name of that id, up to case. */
  lemma GetByIdOfGetByName(e: EnumClass, name: string)
    requires WellFormed(e)
    requires GetByName(e, name).Some?
    ensures GetById(e, GetByName(e, name).value).Some?
    ensures EqualsIgnoreCase(GetById(e, GetByName(e, name).value).value, name)
  {
    var r := GetByName(e, name);
    var i :| 0 <= i < |e.names| && e.names[i].id == r.value && EqualsIgnoreCase(e.names[i].name, name)
               && forall j :: 0 <= j < i ==> !EqualsIgnoreCase(e.names[j].name, name);
    NameInAt(e.names, i);
  }
}
