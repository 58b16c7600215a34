/** Properties of the users slice: when the session copy stays equal to its
    directory entry, what repeated events do, and what a run of actions can
    and cannot change. */
module UsersProperties {
  import opened UserTypes
  import opened Directory
  import opened UsersReducer

  // ---------------------------------------------------------------------
  // The session copy and the directory entry

  /** A poll authored by the signed-in user keeps the two copies equal. */
  lemma PollAddedKeepsSync(s: UsersState, author: string, id: string)
    requires Synced(s) && s.currentUser.Some? && author == s.currentUser.value.id
    ensures Synced(OnAddNewPollFulfilled(s, author, id))
  {
  }

  /** A vote cast by the signed-in user keeps the two copies equal. */
  lemma VoteKeepsSync(s: UsersState, userId: string, pollId: string, option: string)
    requires Synced(s) && s.currentUser.Some? && userId == s.currentUser.value.id
    ensures Synced(OnVoteOnPollFulfilled(s, userId, pollId, option))
  {
  }

  /** A poll whose author is someone else still lands on the session copy,
      so the two copies part. */
  lemma ForeignPollBreaksSync(s: UsersState, author: string, id: string)
    requires Synced(s) && s.currentUser.Some? && author in s.users
    requires author != s.currentUser.value.id
    ensures !Synced(OnAddNewPollFulfilled(s, author, id))
  {
  }

  /** A vote by someone else lands on the session copy too: the two copies
      stay equal exactly when the session copy already had that answer. */
  lemma ForeignVoteSyncedIff(s: UsersState, userId: string, pollId: string, option: string)
    requires Synced(s) && s.currentUser.Some? && userId in s.users
    requires userId != s.currentUser.value.id
    ensures Synced(OnVoteOnPollFulfilled(s, userId, pollId, option)) <==>
      pollId in s.currentUser.value.answers && s.currentUser.value.answers[pollId] == option
  {
  }

  /** A login keeps the two copies equal exactly when the directory already
      holds the returned record; the login case itself never looks. */
  lemma LoginSyncedIff(s: UsersState, user: User)
    ensures Synced(OnLoginFulfilled(s, user)) <==> user.id in s.users && s.users[user.id] == user
  {
  }

  /** A successful fetch overwrites directory entries without looking at the
      session copy: the two copies stay equal exactly when every last fetched
      record carrying the signed-in id equals the session copy. */
  lemma FetchSyncedIff(s: UsersState, fetched: seq<User>)
    requires Synced(s)
    ensures Synced(OnFetchFulfilled(s, fetched)) <==>
      (s.currentUser.Some? ==>
        forall i :: IsLastOf(fetched, i) && fetched[i].id == s.currentUser.value.id ==> fetched[i] == s.currentUser.value)
  {
    if s.currentUser.Some? {
      var cu := s.currentUser.value;
      if cu.id in Ids(fetched) {
        var i := LastIndex(fetched, cu.id);
      }
    }
  }

  /** For each action, the exact condition under which `Synced` survives it. */
  ghost predicate KeepsSync(s: UsersState, a: Action)
  {
    match a
    case Logout => true
    case LoginFulfilled(user) => user.id in s.users && s.users[user.id] == user
    case LoginRejected(_) => true
    case FetchPending => true
    case FetchFulfilled(fetched) =>
      s.currentUser.Some? ==>
        forall i :: IsLastOf(fetched, i) && fetched[i].id == s.currentUser.value.id ==> fetched[i] == s.currentUser.value
    case FetchRejected(_) => true
    case AddNewPollFulfilled(author, _) => s.currentUser.Some? ==> author == s.currentUser.value.id
    case VoteOnPollFulfilled(userId, pollId, option) =>
      s.currentUser.Some? ==>
        || userId == s.currentUser.value.id
        || (pollId in s.currentUser.value.answers && s.currentUser.value.answers[pollId] == option)
  }

  /** From a synced state, an action keeps the two copies equal exactly when
      `KeepsSync` holds of it. */
  lemma StepSyncedIff(s: UsersState, a: Action)
    requires Synced(s) && Enabled(s, a)
    ensures Synced(Reduce(s, a)) <==> KeepsSync(s, a)
  {
    match a
    case FetchFulfilled(fetched) =>
      FetchSyncedIff(s, fetched);
    case AddNewPollFulfilled(author, id) =>
      if s.currentUser.Some? {
        if author == s.currentUser.value.id {
          PollAddedKeepsSync(s, author, id);
        } else {
          ForeignPollBreaksSync(s, author, id);
        }
      }
    case VoteOnPollFulfilled(userId, pollId, option) =>
      if s.currentUser.Some? {
        if userId == s.currentUser.value.id {
          VoteKeepsSync(s, userId, pollId, option);
        } else {
          ForeignVoteSyncedIff(s, userId, pollId, option);
        }
      }
    case _ =>
  }

  // ---------------------------------------------------------------------
  // Repeated events

  /** A second vote on the same poll overwrites the first: voting `a` then
      `b` ends where voting `b` alone ends, in both copies. */
  lemma RevoteOverwrites(s: UsersState, userId: string, pollId: string, a: string, b: string)
    requires s.currentUser.Some? ==> userId in s.users
    ensures
      var once := OnVoteOnPollFulfilled(s, userId, pollId, a);
      OnVoteOnPollFulfilled(once, userId, pollId, b) == OnVoteOnPollFulfilled(s, userId, pollId, b)
  {
    if s.currentUser.Some? {
      var cu := s.currentUser.value;
      var entry := s.users[userId];
      assert cu.answers[pollId := a][pollId := b] == cu.answers[pollId := b];
      assert entry.answers[pollId := a][pollId := b] == entry.answers[pollId := b];
    }
  }

  /** Settling a fetch twice with the same list gives the state that settling
      it once gives. */
  lemma FetchFulfilledIdempotent(s: UsersState, fetched: seq<User>)
    ensures OnFetchFulfilled(OnFetchFulfilled(s, fetched), fetched) == OnFetchFulfilled(s, fetched)
  {
    MergedIdempotent(s.users, fetched);
  }

  /** Whatever the credential check failed with, a login ends signed out with
      the fixed message, and the directory and the status are untouched. */
  lemma LoginFailureMessage<F>(s: UsersState, failure: F)
    ensures
      var r := Reduce(s, LoginSettled(Failure(failure)));
      && !r.isAuthenticated && r.currentUser == None
      && r.error == Some("Invalid username or password")
      && r.users == s.users && r.status == s.status
  {
  }

  // ---------------------------------------------------------------------
  // Runs of actions, applied one at a time

  /** Every action of `acts` can be applied in turn from `s`. */
  predicate Runs(s: UsersState, acts: seq<Action>)
    decreases |acts|
  {
    acts == [] || (Enabled(s, acts[0]) && Runs(Reduce(s, acts[0]), acts[1..]))
  }

  /** The state after applying `acts` in order. */
  function ReduceAll(s: UsersState, acts: seq<Action>): UsersState
    requires Runs(s, acts)
    decreases |acts|
  {
    if acts == [] then s else ReduceAll(Reduce(s, acts[0]), acts[1..])
  }

  /** The ids delivered by the successful fetches in `acts`. */
  function FetchedIds(acts: seq<Action>): set<string>
    decreases |acts|
  {
    if acts == [] then {}
    else (if acts[0].FetchFulfilled? then Ids(acts[0].fetched) else {}) + FetchedIds(acts[1..])
  }

  /** Directory entries are created only by successful fetches and never
      removed: after a run the directory's ids are the starting ids plus the
      fetched ones. */
  lemma {:induction false} DirectoryKeys(s: UsersState, acts: seq<Action>)
    requires Runs(s, acts)
    ensures ReduceAll(s, acts).users.Keys == s.users.Keys + FetchedIds(acts)
    decreases |acts|
  {
    if acts != [] {
      DirectoryKeys(Reduce(s, acts[0]), acts[1..]);
    }
  }

  /** Only the fetch cases move the status, and each moves it away from idle. */
  lemma {:induction false} StatusMovesOnlyOnFetch(s: UsersState, acts: seq<Action>)
    requires Runs(s, acts)
    ensures (forall i :: 0 <= i < |acts| ==> !acts[i].IsFetch()) ==> ReduceAll(s, acts).status == s.status
    ensures (exists i :: 0 <= i < |acts| && acts[i].IsFetch()) ==> ReduceAll(s, acts).status != Idle
    decreases |acts|
  {
    if acts != [] {
      var t := Reduce(s, acts[0]);
      StatusMovesOnlyOnFetch(t, acts[1..]);
      if acts[0].IsFetch() {
        assert t.status != Idle;
      } else {
        assert t.status == s.status;
      }
      forall i | 1 <= i < |acts| ensures acts[i] == acts[1..][i - 1] { }
    }
  }

  /** From the initial state the status is idle exactly until a fetch action
      has been applied. */
  lemma IdleUntilFetch(acts: seq<Action>)
    requires Runs(InitialState, acts)
    ensures ReduceAll(InitialState, acts).status == Idle <==> forall i :: 0 <= i < |acts| ==> !acts[i].IsFetch()
  {
    StatusMovesOnlyOnFetch(InitialState, acts);
  }
}
