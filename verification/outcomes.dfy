/** Results and the error taxonomy of the belt tracker's team state.

    Every operation that can reject a request returns a `Result`; the
    rejection carries one of the errors below. The source raises these as
    rejected promises carrying the messages quoted on each constructor.
 */
module Outcomes {

  datatype Error =
      /** "Team not found!": a team name outside the roster was asked to be created. */
    | TeamNotFound(team: string)
      /** The store refuses a second document with the same `_id` (duplicate key). */
    | DuplicateTeam(team: string)
      /** "skill is already enabled": the team already holds a grant of that name. */
    | SkillAlreadyEnabled(skill: string)
      /** "<skill> Skill not valid!": the name is not in the flat curriculum list. */
    | SkillNotValid(skill: string)
      /** The roster lookup of a team view found no entry (a TypeError in the source). */
    | MissingRosterEntry(team: string)

  datatype Result<+T> = Ok(value: T) | Err(error: Error) {

    predicate IsFailure() {
      Err?
    }

    function PropagateFailure<U>(): Result<U>
      requires Err?
    {
      Err(error)
    }

    function Extract(): T
      requires Ok?
    {
      value
    }
  }
}
