/** The three tables the Elo bot keeps in memory and in its files. */
module Tables {

  /** One participant of a reported game: the lower-cased user name and
      whether that user has confirmed the result. */
  datatype Slot = Slot(name: string, confirmed: bool)

  /** A pending report, `[[winner, flag], [loser, flag]]` in the source. */
  datatype Report = Report(winner: Slot, loser: Slot)

  /** `elo`, `progress` and `done`: ratings by user name, pending reports by
      the id of the reporting comment, and the ids already settled. */
  datatype State = State(elo: map<string, int>, progress: map<string, Report>, done: set<string>)
}
