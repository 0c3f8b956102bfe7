/** The enumerations of the application, as two-way `Enum` tables. */
module Constants {
  import opened Wrappers
  import opened JsText
  import opened Enums

  const LoginType := EnumClass(
    [Member("GOOGLE", 1), Member("CUSTOM", 2)],
    [Named(1, "GOOGLE"), Named(2, "CUSTOM")])

  const Month := EnumClass(
    [ Member("January", 1), Member("February", 2), Member("March", 3), Member("April", 4)
    , Member("May", 5), Member("June", 6), Member("July", 7), Member("August", 8)
    , Member("September", 9), Member("October", 10), Member("November", 11), Member("December", 12) ],
    [ Named(1, "January"), Named(2, "February"), Named(3, "March"), Named(4, "April")
    , Named(5, "May"), Named(6, "June"), Named(7, "July"), Named(8, "August")
    , Named(9, "September"), Named(10, "October"), Named(11, "November"), Named(12, "December") ])

  const UserStatus := EnumClass(
    [Member("ACTIVE", 1), Member("DISABLED", 2), Member("BANNED", 3)],
    [Named(1, "Active"), Named(2, "Disabled"), Named(3, "Banned")])

  const GroupStatus := EnumClass(
    [Member("ACTIVE", 1), Member("ARCHIVED", 2), Member("DELETED", 3)],
    [Named(1, "Active"), Named(2, "Archived"), Named(3, "Deleted")])

  /** `UserStatus.ACTIVE`, `UserStatus.DISABLED`, `UserStatus.BANNED`. */
  const ACTIVE: int := 1
  const DISABLED: int := 2
  const BANNED: int := 3

  lemma UserStatusDistinct()
    ensures DistinctNames(UserStatus.names)
  {
    assert Lower("Active")[0] == 'a';
    assert Lower("Disabled")[0] == 'd';
    assert Lower("Banned")[0] == 'b';
  }

  lemma UserStatusAligned()
    ensures Aligned(UserStatus)
  {
    assert Lower("Active") == "active" == Lower("ACTIVE");
    assert Lower("Disabled") == "disabled" == Lower("DISABLED");
    assert Lower("Banned") == "banned" == Lower("BANNED");
  }

  lemma UserStatusSorted()
    ensures SortedIds(UserStatus.names)
  {
  }

  lemma UserStatusWellFormed()
    ensures WellFormed(UserStatus)
  {
    UserStatusSorted();
    UserStatusDistinct();
    UserStatusAligned();
    AlignedAgrees(UserStatus);
  }

  /** The user-status ids and names, in both directions. */
  lemma UserStatusTable()
    ensures Const(UserStatus, "ACTIVE") == Some(ACTIVE as nat)
    ensures Const(UserStatus, "DISABLED") == Some(DISABLED as nat)
    ensures Const(UserStatus, "BANNED") == Some(BANNED as nat)
    ensures GetById(UserStatus, ACTIVE) == Some("Active")
    ensures GetById(UserStatus, DISABLED) == Some("Disabled")
    ensures GetById(UserStatus, BANNED) == Some("Banned")
    ensures forall id :: GetById(UserStatus, id).Some? <==> id in {ACTIVE, DISABLED, BANNED}
  {
    UserStatusForward();
    UserStatusReverse();
  }

  lemma UserStatusForward()
    ensures Const(UserStatus, "ACTIVE") == Some(ACTIVE as nat)
    ensures Const(UserStatus, "DISABLED") == Some(DISABLED as nat)
    ensures Const(UserStatus, "BANNED") == Some(BANNED as nat)
  {
    assert UserStatus.members[0] in UserStatus.members;
    assert UserStatus.members[1] in UserStatus.members;
    assert UserStatus.members[2] in UserStatus.members;
  }

  lemma UserStatusReverse()
    ensures GetById(UserStatus, ACTIVE) == Some("Active")
    ensures GetById(UserStatus, DISABLED) == Some("Disabled")
    ensures GetById(UserStatus, BANNED) == Some("Banned")
    ensures forall id :: GetById(UserStatus, id).Some? <==> id in {ACTIVE, DISABLED, BANNED}
  {
    UserStatusSorted();
    NameInAt(UserStatus.names, 0);
    NameInAt(UserStatus.names, 1);
    NameInAt(UserStatus.names, 2);
  }

  lemma GroupStatusDistinct()
    ensures DistinctNames(GroupStatus.names)
  {
    assert Lower("Active")[1] == 'c';
    assert Lower("Archived")[1] == 'r';
    assert Lower("Deleted")[0] == 'd';
  }

  lemma GroupStatusAligned()
    ensures Aligned(GroupStatus)
  {
    assert Lower("Active") == "active" == Lower("ACTIVE");
    assert Lower("Archived") == "archived" == Lower("ARCHIVED");
    assert Lower("Deleted") == "deleted" == Lower("DELETED");
  }

  lemma GroupStatusSorted()
    ensures SortedIds(GroupStatus.names)
  {
  }

  lemma GroupStatusWellFormed()
    ensures WellFormed(GroupStatus)
  {
    GroupStatusSorted();
    GroupStatusDistinct();
    GroupStatusAligned();
    AlignedAgrees(GroupStatus);
  }

  /** The group-status ids and names, in both directions. */
  lemma GroupStatusTable()
    ensures Const(GroupStatus, "ACTIVE") == Some(1)
    ensures Const(GroupStatus, "ARCHIVED") == Some(2)
    ensures Const(GroupStatus, "DELETED") == Some(3)
    ensures GetById(GroupStatus, 1) == Some("Active")
    ensures GetById(GroupStatus, 2) == Some("Archived")
    ensures GetById(GroupStatus, 3) == Some("Deleted")
  {
    assert GroupStatus.members[0] in GroupStatus.members;
    assert GroupStatus.members[1] in GroupStatus.members;
    assert GroupStatus.members[2] in GroupStatus.members;
    GroupStatusSorted();
    NameInAt(GroupStatus.names, 0);
    NameInAt(GroupStatus.names, 1);
    NameInAt(GroupStatus.names, 2);
  }

  lemma LoginTypeDistinct()
    ensures DistinctNames(LoginType.names)
  {
    assert Lower("GOOGLE")[0] == 'g';
    assert Lower("CUSTOM")[0] == 'c';
  }

  lemma LoginTypeSorted()
    ensures SortedIds(LoginType.names)
  {
  }

  lemma LoginTypeWellFormed()
    ensures WellFormed(LoginType)
  {
    LoginTypeSorted();
    LoginTypeDistinct();
    AlignedAgrees(LoginType);
  }

  /** The login-type ids and names, in both directions. */
  lemma LoginTypeTable()
    ensures Const(LoginType, "GOOGLE") == Some(1)
    ensures Const(LoginType, "CUSTOM") == Some(2)
    ensures GetById(LoginType, 1) == Some("GOOGLE")
    ensures GetById(LoginType, 2) == Some("CUSTOM")
  {
  }

  /** The lower-cased first three letters of each month, in order: enough to tell the names apart. */
  const MonthPrefixes := ["jan", "feb", "mar", "apr", "may", "jun", "jul", "aug", "sep", "oct", "nov", "dec"]

  lemma MonthPrefixesHold()
    ensures forall i :: 0 <= i < 12 ==> |Month.names[i].name| >= 3 && Lower(Month.names[i].name)[..3] == MonthPrefixes[i]
  {
    forall i | 0 <= i < 12
      ensures |Month.names[i].name| >= 3 && Lower(Month.names[i].name)[..3] == MonthPrefixes[i]
    {
      var n := Month.names[i].name;
      assert Lower(n)[..3] == [LowerChar(n[0]), LowerChar(n[1]), LowerChar(n[2])];
    }
  }

  lemma MonthDistinct()
    ensures DistinctNames(Month.names)
  {
    MonthPrefixesHold();
    assert forall i, j :: 0 <= i < j < 12 ==> MonthPrefixes[i] != MonthPrefixes[j];
  }

  lemma MonthAligned()
    ensures Aligned(Month)
  {
    forall i | 0 <= i < 12
      ensures EqualsIgnoreCase(Month.names[i].name, Month.members[i].key)
    {
      assert Month.names[i].name == Month.members[i].key;
    }
  }

  lemma MonthSorted()
    ensures SortedIds(Month.names)
  {
    assert forall i :: 0 <= i < 12 ==> Month.names[i].id == i + 1;
  }

  lemma MonthWellFormed()
    ensures WellFormed(Month)
  {
    MonthSorted();
    MonthDistinct();
    MonthAligned();
    AlignedAgrees(Month);
  }

  /** Months: 1..12 map to January..December. */
  lemma MonthTable()
    ensures forall m :: 1 <= m <= 12 <==> GetById(Month, m).Some?
    ensures GetById(Month, 1) == Some("January") && GetById(Month, 12) == Some("December")
  {
    assert forall i :: 0 <= i < 12 ==> Month.names[i].id == i + 1;
    forall m | 1 <= m <= 12
      ensures GetById(Month, m).Some?
    {
      assert Month.names[m - 1].id == m;
    }
  }
}
