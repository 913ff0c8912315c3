/** The crew resolver shared by the mission screen and the crew scroller:
    each `(name, role)` of a mission's crew, in order, is looked up in the
    astronaut table by `name`; a name that is not a key aborts the whole
    construction with `"Missing <name>"`. The abort is a `Failure` here, and
    no partial roster escapes it. */
module Crew {
  import opened Wrappers
  import opened Astronauts
  import opened Missions

  /** A resolved crew entry: the role string and the full astronaut record. */
  datatype CrewMember = CrewMember(role: string, astronaut: Astronaut)

  /** The data-integrity failure, naming the crew name that was not found. */
  datatype ResolveError = Missing(name: string)

  /** The diagnostic text `"Missing \(member.name)"`. */
  function Message(e: ResolveError): (msg: string)
    ensures |msg| == 8 + |e.name|
    ensures msg[..8] == "Missing " && msg[8..] == e.name
  {
    var msg := "Missing " + e.name;
    assert msg[8..] == e.name;
    msg
  }

  /** Every crew name is a key of the table. */
  predicate AllPresent(crew: seq<CrewRole>, astronauts: map<string, Astronaut>) {
    forall i :: 0 <= i < |crew| ==> crew[i].name in astronauts
  }

  /** `roster` pairs each crew entry, in order, with the astronaut its name keys. */
  predicate IsRoster(roster: seq<CrewMember>, crew: seq<CrewRole>, astronauts: map<string, Astronaut>) {
    && |roster| == |crew|
    && forall i :: 0 <= i < |crew| ==>
         crew[i].name in astronauts && roster[i] == CrewMember(crew[i].role, astronauts[crew[i].name])
  }

  /** `k` is the position of the first crew name that is not a key. */
  predicate IsFirstMissing(k: int, crew: seq<CrewRole>, astronauts: map<string, Astronaut>) {
    && 0 <= k < |crew|
    && crew[k].name !in astronauts
    && forall j :: 0 <= j < k ==> crew[j].name in astronauts
  }

  /** `mission.crew.map { … }` with the fatal lookup, left to right. */
  function Resolve(crew: seq<CrewRole>, astronauts: map<string, Astronaut>): (r: Result<seq<CrewMember>, ResolveError>)
    ensures r.Success? <==> AllPresent(crew, astronauts)
    ensures r.Success? ==> IsRoster(r.value, crew, astronauts)
    ensures r.Failure? ==> exists k :: IsFirstMissing(k, crew, astronauts) && r.error == Missing(crew[k].name)
    decreases |crew|
  {
    if crew == [] then Success([])
    else if crew[0].name !in astronauts then
      assert IsFirstMissing(0, crew, astronauts);
      Failure(Missing(crew[0].name))
    else
      var head := CrewMember(crew[0].role, astronauts[crew[0].name]);
      match Resolve(crew[1..], astronauts)
      case Success(rest) =>
        assert forall i :: 1 <= i < |crew| ==> crew[i] == crew[1..][i - 1];
        Success([head] + rest)
      case Failure(e) =>
        var k :| IsFirstMissing(k, crew[1..], astronauts) && e == Missing(crew[1..][k].name);
        assert IsFirstMissing(k + 1, crew, astronauts);
        Failure(e)
  }

  /** An empty crew resolves to an empty roster, whatever the table holds. */
  lemma EmptyCrewResolves(astronauts: map<string, Astronaut>)
    ensures Resolve([], astronauts) == Success([])
  {
  }

  /** There is at most one first missing position, so the failure is determined. */
  lemma FirstMissingUnique(k1: int, k2: int, crew: seq<CrewRole>, astronauts: map<string, Astronaut>)
    requires IsFirstMissing(k1, crew, astronauts) && IsFirstMissing(k2, crew, astronauts)
    ensures k1 == k2
  {
  }

  /** At most one roster fits a crew and a table: success means the roster is the join. */
  lemma RosterUnique(r1: seq<CrewMember>, r2: seq<CrewMember>, crew: seq<CrewRole>, astronauts: map<string, Astronaut>)
    requires IsRoster(r1, crew, astronauts) && IsRoster(r2, crew, astronauts)
    ensures r1 == r2
  {
  }

  /** Resolving runs left to right: a concatenated crew fails with the first
      part's failure, else with the second part's, else it joins both rosters. */
  lemma {:induction false} ResolveAppend(a: seq<CrewRole>, b: seq<CrewRole>, astronauts: map<string, Astronaut>)
    ensures Resolve(a + b, astronauts) ==
      match Resolve(a, astronauts)
      case Failure(e) => Failure(e)
      case Success(ra) =>
        match Resolve(b, astronauts)
        case Failure(e) => Failure(e)
        case Success(rb) => Success(ra + rb)
    decreases |a|
  {
    if a == [] {
      assert a + b == b;
      match Resolve(b, astronauts)
      case Failure(e) =>
      case Success(rb) => assert [] + rb == rb;
    } else {
      assert (a + b)[0] == a[0];
      assert (a + b)[1..] == a[1..] + b;
      ResolveAppend(a[1..], b, astronauts);
      if a[0].name in astronauts {
        var head := CrewMember(a[0].role, astronauts[a[0].name]);
        match Resolve(a[1..], astronauts)
        case Failure(e) =>
        case Success(ra) =>
          match Resolve(b, astronauts)
          case Failure(e) =>
          case Success(rb) =>
            assert [head] + (ra + rb) == ([head] + ra) + rb;
      }
    }
  }

  /** The table is only read at the crew's own names: two tables that agree
      there resolve the crew identically. */
  lemma {:induction false} ResolveReadsOnlyCrewNames(crew: seq<CrewRole>, t1: map<string, Astronaut>, t2: map<string, Astronaut>)
    requires forall i :: 0 <= i < |crew| ==> (crew[i].name in t1 <==> crew[i].name in t2)
    requires forall i :: 0 <= i < |crew| && crew[i].name in t1 ==> t1[crew[i].name] == t2[crew[i].name]
    ensures Resolve(crew, t1) == Resolve(crew, t2)
    decreases |crew|
  {
    if crew != [] {
      assert forall i :: 1 <= i < |crew| ==> crew[1..][i - 1] == crew[i];
      ResolveReadsOnlyCrewNames(crew[1..], t1, t2);
    }
  }

  /** With a table keyed by id, each resolved astronaut's id is its crew name. */
  lemma ResolvedIdsMatchNames(crew: seq<CrewRole>, astronauts: map<string, Astronaut>)
    requires KeyedById(astronauts)
    requires Resolve(crew, astronauts).Success?
    ensures forall i :: 0 <= i < |crew| ==> Resolve(crew, astronauts).value[i].astronaut.id == crew[i].name
  {
  }

  /** One crew name that keys the table resolves to that one astronaut. */
  lemma SingleCrewResolves(name: string, role: string, a: Astronaut)
    ensures Resolve([CrewRole(name, role)], map[name := a]) == Success([CrewMember(role, a)])
  {
    var crew := [CrewRole(name, role)];
    assert crew[1..] == [];
    assert Resolve(crew[1..], map[name := a]) == Success([]);
    assert [CrewMember(role, a)] + [] == [CrewMember(role, a)];
  }

  /** One crew name absent from the table fails naming it. */
  lemma SingleCrewMissing(name: string, role: string, astronauts: map<string, Astronaut>)
    requires name !in astronauts
    ensures Resolve([CrewRole(name, role)], astronauts) == Failure(Missing(name))
  {
  }
}
