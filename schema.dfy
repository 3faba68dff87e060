/** Records shared by the pages of the fan site: games and standings rows,
    as the client receives them from the server. */
module Schema {

  /** A value that may be missing (`undefined` or `null` in the client). */
  datatype Option<+T> = None | Some(value: T)

  /** One game of the season. The scores are missing until play starts;
      `quarter` is the free-form progress text ("Scheduled", "Q1" ... "Q4"). */
  datatype Game = Game(
    id: string,
    week: int,
    team1: string,
    team2: string,
    team1Score: Option<int>,
    team2Score: Option<int>,
    isLive: bool,
    isFinal: bool,
    quarter: Option<string>)

  /** One row of the standings table; the differential may be null. */
  datatype Standing = Standing(team: string, pointDifferential: Option<int>)
}
