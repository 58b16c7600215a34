/** The users slice as the store holds it: one object whose fields each
    reducer case assigns in place. Every method leaves the object in the
    state that the matching pure case of `UsersReducer` gives. */
module UsersSlice {
  import opened UserTypes
  import opened Directory
  import opened UsersReducer
  import opened UsersProperties

  class UsersStore {
    var users: map<string, User>
    var status: Status
    var isAuthenticated: bool
    var currentUser: Option<User>
    var error: Option<string>

    /** The fields read as one `UsersState` value. */
    function State(): UsersState
      reads this
    {
      UsersState(users, status, isAuthenticated, currentUser, error)
    }

    /** The slice starts in its initial state. */
    constructor ()
      ensures State() == InitialState
    {
      users := map[];
      status := Idle;
      isAuthenticated := false;
      currentUser := None;
      error := None;
    }

    method Logout()
      modifies this
      ensures State() == OnLogout(old(State()))
    {
      isAuthenticated := false;
      currentUser := None;
      error := None;
    }

    method LoginFulfilled(user: User)
      modifies this
      ensures State() == OnLoginFulfilled(old(State()), user)
    {
      isAuthenticated := true;
      currentUser := Some(user);
      error := None;
    }

    method LoginRejected(payload: string)
      modifies this
      ensures State() == OnLoginRejected(old(State()), payload)
    {
      isAuthenticated := false;
      currentUser := None;
      error := Some(payload);
    }

    method FetchPending()
      modifies this
      ensures State() == OnFetchPending(old(State()))
    {
      status := Loading;
    }

    /** Writes each fetched record under its id, first to last. */
    method FetchFulfilled(fetched: seq<User>)
      modifies this
      ensures State() == OnFetchFulfilled(old(State()), fetched)
    {
      status := Succeeded;
      var i := 0;
      while i < |fetched|
        invariant 0 <= i <= |fetched|
        invariant users == Merged(old(users), fetched[..i])
        invariant status == Succeeded
        invariant isAuthenticated == old(isAuthenticated) && currentUser == old(currentUser)
        invariant error == old(error)
      {
        assert fetched[..i + 1][..i] == fetched[..i];
        users := users[fetched[i].id := fetched[i]];
        i := i + 1;
      }
      assert fetched[..i] == fetched;
    }

    method FetchRejected(message: Option<string>)
      modifies this
      ensures State() == OnFetchRejected(old(State()), message)
    {
      status := Failed;
      error := message;
    }

    /** Pushes the poll id on the session copy and on the author's entry;
        without a signed-in user it does nothing. */
    method AddNewPollFulfilled(author: string, id: string)
      requires currentUser.Some? ==> author in users
      modifies this
      ensures State() == OnAddNewPollFulfilled(old(State()), author, id)
      ensures old(Synced(State())) && old(currentUser).Some? && author == old(currentUser).value.id ==>
        Synced(State())
    {
      ghost var before := State();
      if currentUser.Some? {
        var cu := currentUser.value;
        currentUser := Some(cu.(questions := cu.questions + [id]));
        var entry := users[author];
        users := users[author := entry.(questions := entry.questions + [id])];
      }
      if Synced(before) && before.currentUser.Some? && author == before.currentUser.value.id {
        PollAddedKeepsSync(before, author, id);
      }
    }

    /** Records the chosen option on the session copy and on the voter's
        entry; without a signed-in user it does nothing. */
    method VoteOnPollFulfilled(userId: string, pollId: string, option: string)
      requires currentUser.Some? ==> userId in users
      modifies this
      ensures State() == OnVoteOnPollFulfilled(old(State()), userId, pollId, option)
      ensures old(Synced(State())) && old(currentUser).Some? && userId == old(currentUser).value.id ==>
        Synced(State())
    {
      ghost var before := State();
      if currentUser.Some? {
        var cu := currentUser.value;
        currentUser := Some(cu.(answers := cu.answers[pollId := option]));
        var entry := users[userId];
        users := users[userId := entry.(answers := entry.answers[pollId := option])];
      }
      if Synced(before) && before.currentUser.Some? && userId == before.currentUser.value.id {
        VoteKeepsSync(before, userId, pollId, option);
      }
    }

    /** The slice's reducer: route an action to its case. */
    method Dispatch(a: Action)
      requires Enabled(State(), a)
      modifies this
      ensures State() == Reduce(old(State()), a)
    {
      match a
      case Logout => Logout();
      case LoginFulfilled(user) => LoginFulfilled(user);
      case LoginRejected(payload) => LoginRejected(payload);
      case FetchPending => FetchPending();
      case FetchFulfilled(fetched) => FetchFulfilled(fetched);
      case FetchRejected(message) => FetchRejected(message);
      case AddNewPollFulfilled(author, id) => AddNewPollFulfilled(author, id);
      case VoteOnPollFulfilled(userId, pollId, option) => VoteOnPollFulfilled(userId, pollId, option);
    }
  }
}
