/** The record shapes the journal is built on: an activity, the insight the
    analysis returns, and the fields the editor hands over on submit. */
module Types {

  datatype Option<+T> = None | Some(value: T)

  /** One logged activity. `time` is the `HH:MM` time of day that orders the
      timeline; `timestamp` is the creation instant in epoch milliseconds and
      takes part in no logic. */
  datatype Activity = Activity(
    id: string,
    name: string,
    time: string,
    description: Option<string>,
    timestamp: int)

  /** A generated synthesis: one summary and an ordered list of suggestions. */
  datatype Insight = Insight(summary: string, suggestions: seq<string>)

  /** What the editor passes to the save handler: always these three fields. */
  datatype Draft = Draft(name: string, time: string, description: string)
}
