/**
 * The two MongoDB collections the controllers touch, held in memory: the
 * users table keyed by id and the append-only notification log. Each
 * controller operation is one atomic step on a `Db`.
 */
module Store {
  import opened UserModel

  /**
   * A notification document. Only the three paths the follow toggle sets are
   * modelled; the notification schema itself is not part of this model.
   */
  datatype Notification = Notification(kind: string, from: UserId, to: UserId)

  /** The contents of both collections at one moment. */
  datatype State = State(users: map<UserId, User>, notifications: seq<Notification>)

  class Db {
    var users: map<UserId, User>
    var notifications: seq<Notification>

    function Snapshot(): (s: State)
      reads this
    {
      State(users, notifications)
    }

    /** The users table keeps the schema's constraints and a consistent follow graph. */
    predicate Valid()
      reads this
    {
      TableValid(users) && GraphConsistent(users)
    }

    constructor ()
      ensures users == map[] && notifications == []
      ensures Valid()
    {
      users := map[];
      notifications := [];
    }
  }
}
