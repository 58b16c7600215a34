/** The reducer cases of the users slice as pure transitions on `UsersState`,
    the actions that drive them, and how the two asynchronous operations
    settle into those actions. */
module UsersReducer {
  import opened UserTypes
  import opened Directory

  /** The only rejection payload the login operation ever produces. */
  const InvalidCredentials: string := "Invalid username or password"

  /** A settled action, as dispatched to the slice. */
  datatype Action =
    | Logout
    | LoginFulfilled(user: User)
    | LoginRejected(payload: string)
    | FetchPending
    | FetchFulfilled(fetched: seq<User>)
    | FetchRejected(message: Option<string>)  // `action.error.message` may be undefined
    | AddNewPollFulfilled(author: string, id: string)
    | VoteOnPollFulfilled(userId: string, pollId: string, option: string)
  {
    predicate IsFetch()
    {
      FetchPending? || FetchFulfilled? || FetchRejected?
    }
  }

  /** Signing out: the session is cleared; the directory and the fetch status stay. */
  function OnLogout(s: UsersState): (r: UsersState)
    ensures !r.isAuthenticated && r.currentUser == None && r.error == None
    ensures r.users == s.users && r.status == s.status
  {
    s.(isAuthenticated := false, currentUser := None, error := None)
  }

  /** A successful login: the session holds exactly the returned user; the
      directory is not consulted or touched. */
  function OnLoginFulfilled(s: UsersState, user: User): (r: UsersState)
    ensures r.isAuthenticated && r.currentUser == Some(user) && r.error == None
    ensures r.users == s.users && r.status == s.status
  {
    s.(isAuthenticated := true, currentUser := Some(user), error := None)
  }

  /** A failed login: signed out, with the rejection payload as the error. */
  function OnLoginRejected(s: UsersState, payload: string): (r: UsersState)
    ensures !r.isAuthenticated && r.currentUser == None && r.error == Some(payload)
    ensures r.users == s.users && r.status == s.status
  {
    s.(isAuthenticated := false, currentUser := None, error := Some(payload))
  }

  /** A fetch starts: only the status changes. */
  function OnFetchPending(s: UsersState): (r: UsersState)
    ensures r.status == Loading
    ensures r.users == s.users && r.isAuthenticated == s.isAuthenticated
    ensures r.currentUser == s.currentUser && r.error == s.error
  {
    s.(status := Loading)
  }

  /** A fetch succeeds: every fetched id now maps to the last fetched record
      with that id, every other entry is kept, and `error` is left as it was. */
  function OnFetchFulfilled(s: UsersState, fetched: seq<User>): (r: UsersState)
    ensures r.status == Succeeded
    ensures r.users.Keys == s.users.Keys + Ids(fetched)
    ensures forall i :: IsLastOf(fetched, i) ==> r.users[fetched[i].id] == fetched[i]
    ensures forall k :: k in s.users && k !in Ids(fetched) ==> r.users[k] == s.users[k]
    ensures r.isAuthenticated == s.isAuthenticated && r.currentUser == s.currentUser
    ensures r.error == s.error
  {
    s.(status := Succeeded, users := Merged(s.users, fetched))
  }

  /** A fetch fails: status `failed` and the failure's message as the error;
      the directory and the session stay. */
  function OnFetchRejected(s: UsersState, message: Option<string>): (r: UsersState)
    ensures r.status == Failed && r.error == message
    ensures r.users == s.users && r.isAuthenticated == s.isAuthenticated
    ensures r.currentUser == s.currentUser
  {
    s.(status := Failed, error := message)
  }

  /** A poll was created. With a signed-in user the poll id is pushed on the
      session copy's questions and on the author's directory entry; nothing
      else changes. Without one the state is left alone. The source throws
      when the author has no directory entry, hence the precondition. */
  function OnAddNewPollFulfilled(s: UsersState, author: string, id: string): (r: UsersState)
    requires s.currentUser.Some? ==> author in s.users
    ensures s.currentUser.None? ==> r == s
    ensures s.currentUser.Some? ==>
      && r.currentUser.Some?
      && QuestionAppended(s.currentUser.value, r.currentUser.value, id)
      && r.users.Keys == s.users.Keys
      && QuestionAppended(s.users[author], r.users[author], id)
      && forall k :: k in s.users && k != author ==> r.users[k] == s.users[k]
    ensures r.status == s.status && r.isAuthenticated == s.isAuthenticated && r.error == s.error
  {
    match s.currentUser
    case None => s
    case Some(cu) =>
      var entry := s.users[author];
      s.(currentUser := Some(cu.(questions := cu.questions + [id])),
         users := s.users[author := entry.(questions := entry.questions + [id])])
  }

  /** A vote was cast. With a signed-in user the answer for the poll is set
      to the chosen option on the session copy and on the voter's directory
      entry, overwriting an earlier answer for that poll; nothing else
      changes. Without one the state is left alone. The source throws when
      the voter has no directory entry, hence the precondition. */
  function OnVoteOnPollFulfilled(s: UsersState, userId: string, pollId: string, option: string): (r: UsersState)
    requires s.currentUser.Some? ==> userId in s.users
    ensures s.currentUser.None? ==> r == s
    ensures s.currentUser.Some? ==>
      && r.currentUser.Some?
      && AnswerRecorded(s.currentUser.value, r.currentUser.value, pollId, option)
      && r.users.Keys == s.users.Keys
      && AnswerRecorded(s.users[userId], r.users[userId], pollId, option)
      && forall k :: k in s.users && k != userId ==> r.users[k] == s.users[k]
    ensures r.status == s.status && r.isAuthenticated == s.isAuthenticated && r.error == s.error
  {
    match s.currentUser
    case None => s
    case Some(cu) =>
      var entry := s.users[userId];
      s.(currentUser := Some(cu.(answers := cu.answers[pollId := option])),
         users := s.users[userId := entry.(answers := entry.answers[pollId := option])])
  }

  /** The actions the slice can apply without throwing in state `s`. */
  predicate Enabled(s: UsersState, a: Action)
  {
    match a
    case AddNewPollFulfilled(author, _) => s.currentUser.Some? ==> author in s.users
    case VoteOnPollFulfilled(userId, _, _) => s.currentUser.Some? ==> userId in s.users
    case _ => true
  }

  /** The slice's reducer: dispatch an action to its case. Only a successful
      fetch adds directory ids and none removes one; only the fetch cases
      move the status, and they move it away from idle; the fetch cases leave
      the session alone. */
  function Reduce(s: UsersState, a: Action): (r: UsersState)
    requires Enabled(s, a)
    ensures r.users.Keys == s.users.Keys + (if a.FetchFulfilled? then Ids(a.fetched) else {})
    ensures a.IsFetch() ==> r.status != Idle
    ensures !a.IsFetch() ==> r.status == s.status
    ensures a.IsFetch() ==> r.isAuthenticated == s.isAuthenticated && r.currentUser == s.currentUser
  {
    match a
    case Logout => OnLogout(s)
    case LoginFulfilled(user) => OnLoginFulfilled(s, user)
    case LoginRejected(payload) => OnLoginRejected(s, payload)
    case FetchPending => OnFetchPending(s)
    case FetchFulfilled(fetched) => OnFetchFulfilled(s, fetched)
    case FetchRejected(message) => OnFetchRejected(s, message)
    case AddNewPollFulfilled(author, id) => OnAddNewPollFulfilled(s, author, id)
    case VoteOnPollFulfilled(userId, pollId, option) => OnVoteOnPollFulfilled(s, userId, pollId, option)
  }

  /** How the login operation settles, given what the credential check
      returned: the user on success, and on any failure a rejection whose
      payload is the fixed message, whatever the failure was. */
  function LoginSettled<F>(checked: Result<User, F>): (a: Action)
    ensures checked.Success? ==> a == LoginFulfilled(checked.value)
    ensures checked.Failure? ==> a == LoginRejected(InvalidCredentials)
  {
    match checked
    case Success(user) => LoginFulfilled(user)
    case Failure(_) => LoginRejected(InvalidCredentials)
  }

  /** How the fetch operation settles, given what the directory listing
      returned: the list of users, or the failure's message (possibly absent). */
  function FetchSettled(listed: Result<seq<User>, Option<string>>): (a: Action)
    ensures a.IsFetch() && !a.FetchPending?
    ensures listed.Success? <==> a.FetchFulfilled?
    ensures listed.Success? ==> a.fetched == listed.value
    ensures listed.Failure? ==> a.message == listed.error
  {
    match listed
    case Success(fetched) => FetchFulfilled(fetched)
    case Failure(message) => FetchRejected(message)
  }
}
