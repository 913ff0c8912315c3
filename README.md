# Moonshot crew resolution and mission display fields, in Dafny

Moonshot is a SwiftUI app that shows the Apollo missions and their
astronauts from two bundled JSON tables. Its one piece of logic is the
**crew resolver**. The mission screen (`MissionView`) and the crew scroller
(`CrewScrollView`) each have an identical copy of it in their initializers.
It walks a mission's ordered `(name, role)` crew list. It looks each `name`
up in the astronaut dictionary and builds an ordered roster of
`CrewMember(role, astronaut)`. If any name is absent, it aborts with
`"Missing <name>"`. The `Mission` record also derives three display strings
from its fields: `displayName`, `image` and `formattedLaunchDate`.

The model has seven modules:

- `Wrappers`: `Option` for Swift optionals; `Result` for a construction that would otherwise end in `fatalError`.
- `Decimal`: Swift's decimal interpolation of an `Int` (`IntToString`), with a canonical parser `ParseInt` as its inverse.
- `Astronauts`: the `Astronaut` record.
- `Missions`: `Mission`, `CrewRole`, a calendar `Date`, and the derived fields.
- `Crew`: the shared resolver `Resolve`, the `CrewMember` and `ResolveError` types, and the lemmas about the resolver.
- `MissionView` and `CrewScrollView`: each screen's stored state and its `Init`.

Both Swift initializers have the same text, so both `Init` functions call the
one `Crew.Resolve`. The two nested Swift `CrewMember` structs have identical
fields, so one datatype `Crew.CrewMember` stands for both.
`fatalError("Missing \(member.name)")` becomes `Failure(Missing(name))`, and
`Crew.Message` renders its text. A failure carries no roster. Every record is
an immutable Dafny datatype value, matching the source's `let` fields, so no
operation can change a mission or an astronaut after construction.

## Model

| member | source | states |
|---|---|---|
| `Decimal.NatToString` | Moonshot/Missions.swift:26 | the digits of a natural number form a canonical numeral (non-empty, all digits, no leading zero) whose value is that number |
| `Decimal.IntToString` | Moonshot/Missions.swift:26 | the rendering of an `Int` is non-empty, starts with `-` exactly when the value is negative, and parses back to the same value |
| `Decimal.CanonicalRoundTrip` | Moonshot/Missions.swift:26 | every canonical numeral is the rendering of its own value |
| `Decimal.ParseIntCanonical` | Moonshot/Missions.swift:26 | a string that parses to `i` is exactly `IntToString(i)`, so rendering and parsing are inverse bijections |
| `Decimal.IntToStringInjective` | Moonshot/Missions.swift:26 | distinct integers render to distinct strings |
| `Missions.DisplayName` | Moonshot/Missions.swift:25-27 | the display name is `"Apollo "` followed by a numeral that reads back as the mission id |
| `Missions.Image` | Moonshot/Missions.swift:30-32 | the image key is `"apollo"` followed by a numeral that reads back as the mission id |
| `Missions.FormattedLaunchDate` | Moonshot/Missions.swift:35-37 | a mission without a launch date shows `"N/A"`; one with a date shows the host formatter's text for that date |
| `Missions.DisplayNameIsApolloId` | Moonshot/Missions.swift:25-32 | `displayName == "Apollo " + IntToString(id)` and `image == "apollo" + IntToString(id)` |
| `Missions.NamesDependOnlyOnId` | Moonshot/Missions.swift:25-32 | two missions with the same id have the same display name and image key, whatever their launch date, crew or description |
| `Missions.DistinctIdsDistinctNames` | Moonshot/Missions.swift:25-32 | missions with different ids have different display names and different image keys |
| `Missions.ApolloOne` | Moonshot/Missions.swift:25-37 | mission 1 without a launch date is named `"Apollo 1"`, has image `"apollo1"` and shows `"N/A"` |
| `Crew.Message` | Moonshot/MissionView.swift:34 | the diagnostic is `"Missing "` followed by exactly the missing name |
| `Crew.Resolve` | Moonshot/MissionView.swift:27-36 | resolution succeeds if and only if every crew name is a key of the table; on success the roster has the crew's length and each entry keeps the crew entry's role in order and holds the astronaut its name keys; on failure the error names the first absent name in crew order |
| `Crew.EmptyCrewResolves` | Moonshot/MissionView.swift:27 | an empty crew resolves to an empty roster whatever the table holds |
| `Crew.FirstMissingUnique` | Moonshot/MissionView.swift:27-35 | there is only one first missing position, so the failure is determined by the input |
| `Crew.RosterUnique` | Moonshot/MissionView.swift:27-31 | only one roster fits a crew and a table, so the successful result is determined by the input |
| `Crew.ResolveAppend` | Moonshot/MissionView.swift:27-36 | a concatenated crew fails with the first part's failure, else the second part's, else resolves to the concatenated rosters (left-to-right `map`) |
| `Crew.ResolveReadsOnlyCrewNames` | Moonshot/MissionView.swift:29 | the table is only read at the crew's names: two tables that agree on those names give the same result |
| `Crew.ResolvedIdsMatchNames` | Moonshot/MissionView.swift:29-31 | when every table key is its astronaut's own id, each resolved astronaut's id equals the crew entry's name |
| `Crew.SingleCrewResolves` | Moonshot/MissionView.swift:27-31 | a one-member crew whose name keys the table resolves to the single entry with that role and astronaut |
| `Crew.SingleCrewMissing` | Moonshot/MissionView.swift:29-35 | a one-member crew whose name is absent fails naming it |
| `MissionView.Init` | Moonshot/MissionView.swift:23-37 | the screen stores the input mission unchanged and a roster that keeps the crew's length, order and roles and looks each astronaut up by name; it fails, with no roster, exactly when some name is absent, naming the first one |
| `CrewScrollView.Init` | Moonshot/CrewScrollView.swift:23-37 | the same guarantees for the scroller's copy: mission stored unchanged, roster by name lookup in crew order, failure naming the first absent name exactly when one is absent |
| `CrewScrollView.AgreesWithMissionView` | Moonshot/CrewScrollView.swift:27-36 | for every mission and table the scroller and the mission screen both succeed with the same mission and roster, or both fail with the same error |
| `CrewScrollView.EmptyCrewAlwaysSucceeds` | Moonshot/CrewScrollView.swift:27 | a mission with no crew always yields a scroller with that mission and an empty roster |

## Left out

- The `body` of every view is SwiftUI layout and navigation with no behaviour beyond rendering. This covers ContentView, GridView, ListView, AstronautView, MissionView and CrewScrollView.
- The `Preview` structs only decode the bundle and construct views.
- `Bundle.decode` (Moonshot/Bundle-Decodable.swift) is not part of this model. It does resource lookup and file reading, which are I/O. Its JSON and `y-MM-dd` date parsing are Foundation's `JSONDecoder` and `DateFormatter`, whose rules are not visible. So the astronaut table and the missions arrive here as already-decoded values.
- `Missions.FormattedLaunchDate`: the non-nil branch calls the locale-dependent `Date.formatted(date: .abbreviated, time: .omitted)`. The model takes that formatter as a parameter and says nothing about its output.
- The `ForEach(crew, id: \.role)` identity and the Commander highlighting are UI concerns. The code does not enforce that roles are unique.
- Color-Theme.swift holds floating-point colour constants only.
- Crew.Resolve, MissionView.Init and CrewScrollView.Init: crew names and table keys are compared as sequences of code points, not by Swift's Unicode canonical equivalence that `String` equality and `Dictionary` lookup use. So the model matches the program only when names and keys are in one normalization form, as the bundled ASCII ids are. For example, a decomposed `"e\u{301}"` finds a precomposed `"\u{e9}"` key in Swift, but not here. A Dafny map can also hold two canonically equal keys, which a Swift dictionary cannot.
- Date is a stand-in record with year, month and day fields. In the source it is Foundation's `Date`, a floating-point instant. The model neither checks nor uses its fields.
- Swift's `fatalError` ends the process. Here it is a `Failure` value, and the caller decides what to do with it.
