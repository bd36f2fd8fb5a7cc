/**
 * The rows the scripts read, already parsed: only the columns the
 * aggregations look at are kept, and numeric columns are integers.
 */
module Records {

  /** A row of matches.csv. An abandoned match has the empty string as winner. */
  datatype Match = Match(id: string, season: string, winner: string)

  /** A row of deliveries.csv. */
  datatype Delivery = Delivery(matchId: string, battingTeam: string, bowler: string, totalRuns: int)
}
