/** The User fields the controllers read and write, and the users collection. */
module Users {
  import opened Common

  /** A user document: display name, activity flag, the three relationship lists
      (connections, sentFriendRequests, receivedFriendRequests) and saved posts. */
  datatype User = User(
    fullName: string,
    isActive: bool,
    connections: seq<Id>,
    sent: seq<Id>,
    received: seq<Id>,
    savedPosts: seq<Id>)

  /** The users collection: documents by id, and the order in which an unsorted
      `find` returns them. */
  class UserCollection {
    var docs: map<Id, User>
    var order: seq<Id>

    constructor (docs: map<Id, User>, order: seq<Id>)
      ensures this.docs == docs && this.order == order
    {
      this.docs := docs;
      this.order := order;
    }
  }
}
