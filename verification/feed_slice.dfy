/**
  The `feed` slice of the store (src/utils/feedSlice.js): a nullable list of
  profiles, replaced by `addFeed` and filtered by `removeUserFromFeed`.
  `removeUserFromFeed` compares the profiles' `id` field with the payload,
  not the `_id` field the card stack uses.
 */
module FeedSlice {
  import opened Optional
  import opened Seqs
  import opened Profiles

  /** `null` before the first fetch, then the list the server sent. */
  type FeedState = Option<seq<Profile>>

  const InitialState: FeedState := None

  /** `addFeed`: the payload becomes the state, whatever was there. */
  function AddFeed(state: FeedState, payload: FeedState): FeedState {
    payload
  }

  /**
    The test `user.id !== payload`. `None` stands for `undefined` on both
    sides, so an entry without `id` is dropped only by an absent payload. A
    `null` payload, which keeps such entries (`undefined !== null`), is not
    represented.
   */
  function IdIsNot(payload: Option<string>): Profile -> bool {
    (u: Profile) => u.id != payload
  }

  /** `removeUserFromFeed`: a null state stays null; a list loses the entries whose `id` is the payload. */
  function RemoveUserFromFeed(state: FeedState, payload: Option<string>): (r: FeedState)
    ensures r.None? <==> state.None?
    ensures r.Some? ==> |r.value| <= |state.value|
    ensures r.Some? ==> forall u :: u in r.value <==> u in state.value && u.id != payload
  {
    if state.None? then state
    else Some(Filter(state.value, IdIsNot(payload)))
  }

  /** Whatever came before, `addFeed` leaves exactly its payload. */
  lemma AddFeedForgetsPriorState(s1: FeedState, s2: FeedState, payload: FeedState)
    ensures AddFeed(s1, payload) == AddFeed(s2, payload) == payload
    ensures AddFeed(AddFeed(s1, s2), payload) == AddFeed(s1, payload)
  {
  }

  /** Removing the same `id` a second time changes nothing. */
  lemma RemoveIdempotent(state: FeedState, payload: Option<string>)
    ensures RemoveUserFromFeed(RemoveUserFromFeed(state, payload), payload) == RemoveUserFromFeed(state, payload)
  {
    if state.Some? {
      FilterIdempotent(state.value, IdIsNot(payload));
    }
  }

  /** The surviving entries keep their order: removal distributes over concatenation. */
  lemma RemovePreservesOrder(front: seq<Profile>, back: seq<Profile>, payload: Option<string>)
    ensures RemoveUserFromFeed(Some(front + back), payload).value
            == RemoveUserFromFeed(Some(front), payload).value + RemoveUserFromFeed(Some(back), payload).value
  {
    FilterAppend(front, back, IdIsNot(payload));
  }

  /** When no entry has the payload as its `id`, the list is returned unchanged. */
  lemma RemoveAbsentIsNoop(users: seq<Profile>, payload: Option<string>)
    requires forall i :: 0 <= i < |users| ==> users[i].id != payload
    ensures RemoveUserFromFeed(Some(users), payload) == Some(users)
  {
    FilterKeepsAll(users, IdIsNot(payload));
  }

  /** The list gets shorter exactly when some entry has the payload as its `id`. */
  lemma RemoveShrinksIffPresent(users: seq<Profile>, payload: Option<string>)
    ensures |RemoveUserFromFeed(Some(users), payload).value| < |users|
            <==> exists i :: 0 <= i < |users| && users[i].id == payload
  {
    FilterShrinksIffSomeDropped(users, IdIsNot(payload));
  }

  /**
    Matching is on `id`, not `_id`: in any list, an entry whose `_id` is the
    payload but whose `id` differs survives, and an entry whose `id` is the
    payload is dropped whatever its `_id`.
   */
  lemma MatchesIdNotUid(users: seq<Profile>, uid: string)
    ensures forall i :: 0 <= i < |users| && users[i].uid == uid && users[i].id != Some(uid) ==>
              users[i] in RemoveUserFromFeed(Some(users), Some(uid)).value
    ensures forall i :: 0 <= i < |users| && users[i].id == Some(uid) ==>
              users[i] !in RemoveUserFromFeed(Some(users), Some(uid)).value
  {
  }
}
