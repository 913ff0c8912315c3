/** The astronaut record decoded from the bundled astronaut table. */
module Astronauts {

  datatype Astronaut = Astronaut(id: string, name: string, description: string)

  /** The table's keys agree with the records' own ids, as the bundled data
      is written; nothing in the program checks it. */
  predicate KeyedById(astronauts: map<string, Astronaut>) {
    forall k :: k in astronauts ==> astronauts[k].id == k
  }
}
