/** The records of the users slice: a user, the slice's state and its initial value. */
module UserTypes {

  datatype Option<+T> = None | Some(value: T)

  datatype Result<+R, +E> = Success(value: R) | Failure(error: E)

  /** One registered participant. `avatarURL` is `string | null` in the source. */
  datatype User = User(
    id: string,
    password: string,
    name: string,
    avatarURL: Option<string>,
    answers: map<string, string>,  // poll id -> chosen option
    questions: seq<string>         // ids of the polls this user authored, in creation order
  )

  /** The lifecycle of the directory fetch. */
  datatype Status = Idle | Loading | Succeeded | Failed

  /** The whole users slice. `error` is `string | undefined` in the source. */
  datatype UsersState = UsersState(
    users: map<string, User>,
    status: Status,
    isAuthenticated: bool,
    currentUser: Option<User>,
    error: Option<string>
  )

  /** Empty directory, nothing fetched, nobody signed in, no error. */
  const InitialState: UsersState := UsersState(map[], Idle, false, None, None)

  /** Two user records agree on everything but `answers` and `questions`. */
  predicate SameProfile(u: User, v: User)
  {
    u.id == v.id && u.password == v.password && u.name == v.name && u.avatarURL == v.avatarURL
  }

  /** `after` is `before` with `pollId` pushed on the end of its questions. */
  predicate QuestionAppended(before: User, after: User, pollId: string)
  {
    && SameProfile(before, after)
    && after.answers == before.answers
    && after.questions == before.questions + [pollId]
  }

  /** `after` is `before` with its answer for `pollId` set to `option`:
      that key now holds `option` and every other key is as it was. */
  predicate AnswerRecorded(before: User, after: User, pollId: string, option: string)
  {
    && SameProfile(before, after)
    && after.questions == before.questions
    && after.answers.Keys == before.answers.Keys + {pollId}
    && after.answers[pollId] == option
    && forall p :: p in before.answers && p != pollId ==> after.answers[p] == before.answers[p]
  }

  /** The session copy of the signed-in user equals its directory entry. */
  predicate Synced(s: UsersState)
  {
    s.currentUser.Some? ==>
      s.currentUser.value.id in s.users && s.users[s.currentUser.value.id] == s.currentUser.value
  }
}
