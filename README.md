# Users slice of the polling app, in Dafny

This project models the client-side user store of the polling web app,
`frontend/src/features/usersSlice.ts`. The store keeps two things:

- the session: whether someone is signed in, a copy of the signed-in user, and the last error;
- the directory: a map from user id to user record, plus the status of the fetch that loads it (`idle`, `loading`, `succeeded`, `failed`).

Every change to the store is one reducer case, applied to one settled action at a time:

- `logout`;
- login fulfilled / rejected;
- fetch pending / fulfilled / rejected;
- two cases driven by the poll store: a poll was created (`addNewPoll.fulfilled`) and a vote was cast (`voteOnPoll.fulfilled`).

Layout:

- `types.dfy` (module `UserTypes`): `User`, `Status`, `UsersState`, the initial state, and the predicates the contracts use. `Synced` says the session copy equals its directory entry.
- `directory.dfy` (module `Directory`): the write-by-id loop of the fetch-fulfilled case, as the function `Merged`. Its contract says each fetched id maps to the last fetched record with that id and every other entry is kept. Writing the same list twice changes nothing.
- `reducer.dfy` (module `UsersReducer`): each reducer case as a pure transition `On…` on `UsersState`, whose contract says what changes and what stays. Also the `Action` datatype, the dispatching `Reduce`, and how the two asynchronous operations settle into actions (`LoginSettled`, `FetchSettled`).
- `properties.dfy` (module `UsersProperties`): when the session copy and its directory entry stay equal, and when they part. Also re-voting, repeated fetches, and what runs of actions do to the directory ids and to the status.
- `slice.dfy` (module `UsersSlice`): class `UsersStore`, whose fields are the slice's fields. It has one method per reducer case that assigns them in place. Fetch-fulfilled keeps the source's loop over the fetched list, with the map built so far as its invariant. Each method is proved to leave the object in the state the matching `On…` function gives.

One equality is intended but not kept by the code: that the signed-in user's copy always equals that user's directory entry (the predicate `Synced`). The model follows the code, in which three kinds of case can break it:

- login stores the returned user without looking at the directory;
- a successful fetch overwrites directory entries without looking at the session copy;
- the poll and vote cases update the session copy whatever the author or voter is.

`StepSyncedIff` states, for every action, exactly when the equality survives a step from a synced state. `PollAddedKeepsSync`, `VoteKeepsSync`, `ForeignPollBreaksSync`, `ForeignVoteSyncedIff`, `LoginSyncedIff` and `FetchSyncedIff` give the cases one by one.

## Model

| member | source | states |
|---|---|---|
| `Directory.Merged` | frontend/src/features/usersSlice.ts:96-98 | Writing the fetched list into the directory keeps every old id and adds every fetched one. Each fetched id maps to the last record in the list with that id. Every id that was not fetched keeps its old entry. |
| `Directory.LastIndex` | frontend/src/features/usersSlice.ts:96-98 | Every id in the fetched list has a last record carrying it, so the directory after a fetch is determined for every fetched id. |
| `Directory.MergedIdempotent` | frontend/src/features/usersSlice.ts:94-99 | Writing the same fetched list twice leaves the directory as writing it once. |
| `UsersReducer.OnLogout` | frontend/src/features/usersSlice.ts:73-77 | Logout signs out: not authenticated, no current user, no error. Directory and status are unchanged. |
| `UsersReducer.OnLoginFulfilled` | frontend/src/features/usersSlice.ts:81-85 | Login success: authenticated, current user is exactly the returned user, error cleared. Directory and status are unchanged. |
| `UsersReducer.OnLoginRejected` | frontend/src/features/usersSlice.ts:86-90 | Login failure: not authenticated, no current user, error is the rejection payload. Directory and status are unchanged. |
| `UsersReducer.OnFetchPending` | frontend/src/features/usersSlice.ts:91-93 | A starting fetch sets the status to loading and changes nothing else. |
| `UsersReducer.OnFetchFulfilled` | frontend/src/features/usersSlice.ts:94-99 | A successful fetch sets the status to succeeded. The directory keys become the old keys plus the fetched ids. Each fetched id maps to its last fetched record and unfetched entries are kept. Session and error are unchanged; the error is not cleared. |
| `UsersReducer.OnFetchRejected` | frontend/src/features/usersSlice.ts:100-103 | A failed fetch sets the status to failed and the error to the failure message (possibly absent). Directory and session are unchanged. |
| `UsersReducer.OnAddNewPollFulfilled` | frontend/src/features/usersSlice.ts:104-113 | With a signed-in user, the poll id is appended at the end of the current user's questions and of the author's entry's questions. Answers and profile fields are kept, every other entry is unchanged, and no key is added. With no signed-in user the state is unchanged. Status, authentication and error never change. |
| `UsersReducer.OnVoteOnPollFulfilled` | frontend/src/features/usersSlice.ts:114-122 | With a signed-in user, the answer for the poll becomes the option in the current user and in the voter's entry. Other answer keys, questions and profile fields are kept, and every other entry is unchanged. With no signed-in user the state is unchanged. Status, authentication and error never change. |
| `UsersReducer.LoginSettled` | frontend/src/features/usersSlice.ts:59-64 | The login operation settles as fulfilled with the user the credential check returned. On any failure it is rejected with the fixed message "Invalid username or password". |
| `UsersReducer.FetchSettled` | frontend/src/features/usersSlice.ts:37-45 | The fetch operation settles as fulfilled with the listed users exactly when the listing succeeds. Otherwise it is rejected with the failure's message. |
| `UsersReducer.Reduce` | frontend/src/features/usersSlice.ts:69-124 | The slice reducer routes each action to its case. Only a successful fetch adds directory ids, and no action removes one. Only the fetch actions move the status, always away from idle, and they leave authentication and the current user alone. |
| `UsersProperties.PollAddedKeepsSync` | frontend/src/features/usersSlice.ts:107-109 | If the current user equals its directory entry and is the poll's author, they are still equal after the poll-created case. |
| `UsersProperties.VoteKeepsSync` | frontend/src/features/usersSlice.ts:116-118 | If the current user equals its directory entry and is the voter, they are still equal after the vote case. |
| `UsersProperties.ForeignPollBreaksSync` | frontend/src/features/usersSlice.ts:107-109 | If the poll's author is another user, the current user no longer equals its directory entry after the poll-created case. |
| `UsersProperties.ForeignVoteSyncedIff` | frontend/src/features/usersSlice.ts:116-118 | If another user votes, the session copy still receives the answer. The two copies stay equal exactly when the session copy already had that option as its answer for the poll. |
| `UsersProperties.LoginSyncedIff` | frontend/src/features/usersSlice.ts:81-85 | After login, the current user equals its directory entry exactly when the directory already held the returned record. |
| `UsersProperties.FetchSyncedIff` | frontend/src/features/usersSlice.ts:94-99 | A successful fetch overwrites entries without looking at the session copy. The two copies stay equal exactly when every last fetched record with the signed-in id equals the session copy. |
| `UsersProperties.StepSyncedIff` | frontend/src/features/usersSlice.ts:72-122 | From a synced state, any applicable action keeps the two copies equal exactly when its condition holds. Logout, login rejection, fetch pending and fetch rejection always keep them. Login keeps them when the directory already holds the returned record. A fetch keeps them when the last fetched record for the signed-in id is the session copy. A poll keeps them when the signed-in user is the author. A vote keeps them when the signed-in user is the voter or already had that answer. |
| `UsersProperties.RevoteOverwrites` | frontend/src/features/usersSlice.ts:114-122 | Voting option a and then b on the same poll ends in the same state as voting b alone, in both copies. |
| `UsersProperties.FetchFulfilledIdempotent` | frontend/src/features/usersSlice.ts:94-99 | Settling a fetch twice with the same list ends in the same state as settling it once. |
| `UsersProperties.LoginFailureMessage` | frontend/src/features/usersSlice.ts:59-90 | Whatever the credential check fails with, the login ends signed out. The error is "Invalid username or password" and the directory and status are unchanged. |
| `UsersProperties.DirectoryKeys` | frontend/src/features/usersSlice.ts:72-122 | After any run of actions, the directory ids are the starting ids plus the ids delivered by successful fetches. No entry is created any other way, and none is removed. |
| `UsersProperties.StatusMovesOnlyOnFetch` | frontend/src/features/usersSlice.ts:91-103 | A run without fetch actions leaves the status as it was. A run containing a fetch action ends with a status other than idle. |
| `UsersProperties.IdleUntilFetch` | frontend/src/features/usersSlice.ts:26-32 | From the initial state, the status is idle exactly when no fetch action has been applied. |
| `UsersSlice.UsersStore.constructor` | frontend/src/features/usersSlice.ts:26-32 | The store starts with an empty directory, status idle, signed out, with no current user and no error. |
| `UsersSlice.UsersStore.Logout` | frontend/src/features/usersSlice.ts:73-77 | The fields become the logout transition of the old state. |
| `UsersSlice.UsersStore.LoginFulfilled` | frontend/src/features/usersSlice.ts:81-85 | The fields become the login-success transition of the old state. |
| `UsersSlice.UsersStore.LoginRejected` | frontend/src/features/usersSlice.ts:86-90 | The fields become the login-failure transition of the old state. |
| `UsersSlice.UsersStore.FetchPending` | frontend/src/features/usersSlice.ts:91-93 | The fields become the fetch-pending transition of the old state. |
| `UsersSlice.UsersStore.FetchFulfilled` | frontend/src/features/usersSlice.ts:94-99 | After the loop that writes each fetched record under its id, the fields are the fetch-success transition of the old state. |
| `UsersSlice.UsersStore.FetchRejected` | frontend/src/features/usersSlice.ts:100-103 | The fields become the fetch-failure transition of the old state. |
| `UsersSlice.UsersStore.AddNewPollFulfilled` | frontend/src/features/usersSlice.ts:104-113 | The fields become the poll-created transition of the old state. The current user stays equal to its entry when it is the author. |
| `UsersSlice.UsersStore.VoteOnPollFulfilled` | frontend/src/features/usersSlice.ts:114-122 | The fields become the vote transition of the old state. The current user stays equal to its entry when it is the voter. |
| `UsersSlice.UsersStore.Dispatch` | frontend/src/features/usersSlice.ts:69-124 | Applying any action that can be applied gives the slice reducer's result for that action on the old state. |

## Left out

- The network and data layer behind the two asynchronous operations (`_getUsers`, `validateUser`). Their settled outcomes are inputs: `LoginSettled` takes the credential check's success or failure, and `FetchSettled` takes the listed users or the failure's message. `server/_DATA` is not part of this model.
- `Object.values(response)` in the fetch operation (frontend/src/features/usersSlice.ts:40). The fetched list is taken as given, in the order the operation would deliver it.
- The `console.error` calls (lines 42, 111, 120). They only log and do not change state.
- Immer's draft objects and any aliasing between `currentUser` and a directory entry. Records are values here, so a push onto one copy never shows up in the other.
- A poll or vote event whose author or voter has no directory entry while someone is signed in. The source throws there, so the whole update is discarded and the error goes to the dispatcher. The model states this case as a precondition (`Enabled`) and does not model the throw.
- Interleaving of asynchronous operations that are in flight at the same time. Only the sequential application of settled actions is modelled, which is how the store applies them.
- The poll store's own logic (`pollSlice`). Only the payloads of its two events appear: `{author, id}` and `{userId, pollId, option}`.
- The `RootState` type and the action creators exported at lines 126-128. They carry no behaviour beyond `Dispatch`.
- Actions the slice has no case for, such as `loginUser.pending` (dispatched at the start of every login). The reducer leaves the state unchanged for them, so they are left out of `Action`.
