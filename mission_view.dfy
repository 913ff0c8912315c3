/** The mission detail screen's stored state: the mission it was given and
    the crew its initializer resolved. Only the initializer is modelled. */
module MissionView {
  import opened Wrappers
  import opened Astronauts
  import opened Missions
  import opened Crew

  datatype View = View(mission: Mission, crew: seq<CrewMember>)

  /** `init(mission:astronauts:)`: stores the mission unchanged and resolves
      its crew; a missing name is the initializer's fatal error. */
  function Init(mission: Mission, astronauts: map<string, Astronaut>): (r: Result<View, ResolveError>)
    ensures r.Success? <==> AllPresent(mission.crew, astronauts)
    ensures r.Success? ==> r.value.mission == mission && IsRoster(r.value.crew, mission.crew, astronauts)
    ensures r.Failure? ==>
      exists k :: IsFirstMissing(k, mission.crew, astronauts) && r.error == Missing(mission.crew[k].name)
  {
    match Resolve(mission.crew, astronauts)
    case Success(crew) => Success(View(mission, crew))
    case Failure(e) => Failure(e)
  }
}
