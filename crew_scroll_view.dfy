/** The horizontal crew scroller's stored state. Its initializer is the
    same crew resolution as the mission screen's. */
module CrewScrollView {
  import opened Wrappers
  import opened Astronauts
  import opened Missions
  import opened Crew
  import MissionView

  datatype View = View(mission: Mission, crew: seq<CrewMember>)

  /** `init(mission:astronauts:)`: stores the mission unchanged and resolves
      its crew; a missing name is the initializer's fatal error. */
  function Init(mission: Mission, astronauts: map<string, Astronaut>): (r: Result<View, ResolveError>)
    ensures r.Success? <==> AllPresent(mission.crew, astronauts)
    ensures r.Success? ==> r.value.mission == mission && IsRoster(r.value.crew, mission.crew, astronauts)
    ensures r.Failure? ==>
      exists k :: IsFirstMissing(k, mission.crew, astronauts) && r.error == Missing(mission.crew[k].name)
  {
    match Resolve(mission.crew, astronauts)
    case Success(crew) => Success(View(mission, crew))
    case Failure(e) => Failure(e)
  }

  /** The scroller and the mission screen agree on every input: both
      succeed with the same mission and roster, or both fail naming the
      same crew member. This holds by construction: both initializers call
      the one `Crew.Resolve`. */
  lemma AgreesWithMissionView(mission: Mission, astronauts: map<string, Astronaut>)
    ensures Init(mission, astronauts).Success? <==> MissionView.Init(mission, astronauts).Success?
    ensures Init(mission, astronauts).Success? ==>
      && Init(mission, astronauts).value.mission == MissionView.Init(mission, astronauts).value.mission
      && Init(mission, astronauts).value.crew == MissionView.Init(mission, astronauts).value.crew
    ensures Init(mission, astronauts).Failure? ==>
      Init(mission, astronauts).error == MissionView.Init(mission, astronauts).error
  {
  }

  /** A mission with no crew always yields a scroller with an empty roster. */
  lemma EmptyCrewAlwaysSucceeds(mission: Mission, astronauts: map<string, Astronaut>)
    requires mission.crew == []
    ensures Init(mission, astronauts) == Success(View(mission, []))
  {
  }
}
