/** The directory update performed when a fetch settles: each fetched record is
    written under its own id, one after the other, so the last record with a
    given id wins and ids that were not fetched keep their entry. */
module Directory {
  import opened UserTypes

  /** The ids carried by a fetched list. */
  function Ids(payload: seq<User>): set<string>
  {
    set i | 0 <= i < |payload| :: payload[i].id
  }

  /** `payload[i]` is the last record in `payload` with its id. */
  predicate IsLastOf(payload: seq<User>, i: int)
  {
    0 <= i < |payload| && forall j :: i < j < |payload| ==> payload[j].id != payload[i].id
  }

  /** The ids of a list are those of its prefix plus that of its last record. */
  lemma IdsSnoc(payload: seq<User>)
    requires payload != []
    ensures Ids(payload) == Ids(payload[..|payload| - 1]) + {payload[|payload| - 1].id}
  {
  }

  /** `r` is what writing `payload` into `users` must give: the union of the
      keys, each fetched id bound to its last record, every other entry kept. */
  ghost predicate IsMergeOf(r: map<string, User>, users: map<string, User>, payload: seq<User>)
  {
    && r.Keys == users.Keys + Ids(payload)
    && (forall i :: IsLastOf(payload, i) ==> payload[i].id in r && r[payload[i].id] == payload[i])
    && (forall k :: k in users && k !in Ids(payload) ==> r[k] == users[k])
  }

  /** One more write keeps `IsMergeOf` for the list extended by that record. */
  lemma MergeStep(m: map<string, User>, users: map<string, User>, payload: seq<User>)
    requires payload != []
    requires IsMergeOf(m, users, payload[..|payload| - 1])
    ensures IsMergeOf(m[payload[|payload| - 1].id := payload[|payload| - 1]], users, payload)
  {
    var n := |payload| - 1;
    var prefix := payload[..n];
    var r := m[payload[n].id := payload[n]];
    IdsSnoc(payload);
    forall i | IsLastOf(payload, i) ensures payload[i].id in r && r[payload[i].id] == payload[i] {
      if i < n {
        assert prefix[i] == payload[i];
        assert IsLastOf(prefix, i);
      }
    }
  }

  /** The directory after writing `payload` into `users` from first to last
      (the `forEach` of the fetch-fulfilled case). */
  function Merged(users: map<string, User>, payload: seq<User>): (r: map<string, User>)
    ensures IsMergeOf(r, users, payload)
    decreases |payload|
  {
    if payload == [] then
      users
    else
      var n := |payload| - 1;
      var m := Merged(users, payload[..n]);
      MergeStep(m, users, payload);
      m[payload[n].id := payload[n]]
  }

  /** Every fetched id has a last record carrying it. */
  lemma {:induction false} LastIndex(payload: seq<User>, k: string) returns (i: int)
    requires k in Ids(payload)
    ensures IsLastOf(payload, i) && payload[i].id == k
    decreases |payload|
  {
    var n := |payload| - 1;
    if payload[n].id == k {
      i := n;
    } else {
      IdsSnoc(payload);
      var prefix := payload[..n];
      i := LastIndex(prefix, k);
      assert payload[i] == prefix[i];
    }
  }

  /** Writing the same list twice leaves the directory as writing it once. */
  lemma MergedIdempotent(users: map<string, User>, payload: seq<User>)
    ensures Merged(Merged(users, payload), payload) == Merged(users, payload)
  {
    var once := Merged(users, payload);
    var twice := Merged(once, payload);
    forall k | k in Ids(payload) ensures twice[k] == once[k] {
      var i := LastIndex(payload, k);
    }
    assert twice.Keys == once.Keys;
  }
}
