/** A mission record and its derived display fields. All fields are
    immutable: a `Mission` is a value and no operation changes it. */
module Missions {
  import opened Wrappers
  import Decimal

  /** Swift's `Int` on a 64-bit platform. */
  newtype Int64 = x: int | -0x8000_0000_0000_0000 <= x < 0x8000_0000_0000_0000

  /** A stand-in for Foundation's `Date`; nothing here interprets its fields. */
  datatype Date = Date(year: int, month: int, day: int)

  /** One crew assignment: `name` keys the astronaut table, `role` is free text. */
  datatype CrewRole = CrewRole(name: string, role: string)

  datatype Mission = Mission(id: Int64, launchDate: Option<Date>, crew: seq<CrewRole>, description: string)

  /** `"Apollo \(id)"`: the prefix followed by the decimal id. */
  function DisplayName(m: Mission): (r: string)
    ensures |r| > 7 && r[..7] == "Apollo "
    ensures Decimal.ParseInt(r[7..]) == Some(m.id as int)
  {
    var digits := Decimal.IntToString(m.id as int);
    assert ("Apollo " + digits)[7..] == digits;
    "Apollo " + digits
  }

  /** `"apollo\(id)"`: the image-asset key of the mission. */
  function Image(m: Mission): (r: string)
    ensures |r| > 6 && r[..6] == "apollo"
    ensures Decimal.ParseInt(r[6..]) == Some(m.id as int)
  {
    var digits := Decimal.IntToString(m.id as int);
    assert ("apollo" + digits)[6..] == digits;
    "apollo" + digits
  }

  /** The launch date rendered by the host's locale-dependent `formatted`,
      or `"N/A"` for a mission that never launched. */
  function FormattedLaunchDate(m: Mission, formatted: Date -> string): (r: string)
    ensures m.launchDate.None? ==> r == "N/A"
    ensures m.launchDate.Some? ==> r == formatted(m.launchDate.value)
  {
    match m.launchDate
    case Some(d) => formatted(d)
    case None => "N/A"
  }

  /** The display name is exactly the prefix and `IntToString` of the id. */
  lemma DisplayNameIsApolloId(m: Mission)
    ensures DisplayName(m) == "Apollo " + Decimal.IntToString(m.id as int)
    ensures Image(m) == "apollo" + Decimal.IntToString(m.id as int)
  {
  }

  /** Neither derived name looks at the launch date, crew or description. */
  lemma NamesDependOnlyOnId(m1: Mission, m2: Mission)
    requires m1.id == m2.id
    ensures DisplayName(m1) == DisplayName(m2)
    ensures Image(m1) == Image(m2)
  {
  }

  /** Distinct ids give distinct display names and distinct image keys. */
  lemma DistinctIdsDistinctNames(m1: Mission, m2: Mission)
    requires m1.id != m2.id
    ensures DisplayName(m1) != DisplayName(m2)
    ensures Image(m1) != Image(m2)
  {
  }

  /** Apollo 1 never launched: its name and its launch-date text. */
  lemma ApolloOne(m: Mission, formatted: Date -> string)
    requires m.id == 1 && m.launchDate.None?
    ensures DisplayName(m) == "Apollo 1"
    ensures Image(m) == "apollo1"
    ensures FormattedLaunchDate(m, formatted) == "N/A"
  {
  }
}
