/**
  A candidate profile as the feed endpoint delivers it and the card stack
  shows it. It carries two identifiers. `uid` is the server's `_id`, which
  the card stack keys and evicts by. `id` is an optional `id` field, which the
  feed reducer removes by. They are kept apart because the two components
  compare different fields.
 */
module Profiles {
  import opened Optional

  datatype Profile = Profile(
    uid: string,
    id: Option<string>,
    firstName: string,
    lastName: string,
    photoUrl: string,
    skills: seq<string>,
    age: int,
    gender: string,
    about: string)

  /** No two profiles of the list share a `_id`. */
  predicate DistinctUids(cards: seq<Profile>) {
    forall i, j :: 0 <= i < j < |cards| ==> cards[i].uid != cards[j].uid
  }
}
