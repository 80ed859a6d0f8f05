/**
  The feed page (src/components/Feed.jsx): the fetch guard of its effect and
  the three-way choice of what to render from the nullable feed.
 */
module Feed {
  import opened Optional
  import opened Profiles
  import opened FeedSlice
  import SwipeCards

  /** What the page shows. */
  datatype FeedView = Loading | NoUsers | Cards(users: seq<Profile>)

  /**
    The render: "Loading feed..." while the feed is null, "No new users
    found!" for an empty list, and otherwise the whole list, untouched, to
    the card stack.
   */
  function SelectView(feed: FeedState): (v: FeedView)
    ensures v.Loading? <==> feed.None?
    ensures v.NoUsers? <==> feed == Some([])
    ensures v.Cards? <==> feed.Some? && |feed.value| > 0
    ensures v.Cards? ==> feed == Some(v.users)
  {
    if feed.None? then Loading
    else if |feed.value| == 0 then NoUsers
    else Cards(feed.value)
  }

  /** How the `GET /feed` request would settle: `res.data.data`, or an error. */
  datatype FetchAnswer = Fetched(data: FeedState) | FetchFailed(error: string)

  /** Whether the effect asked the server, and the feed afterwards. */
  datatype FeedEffect = FeedEffect(fetched: bool, feed: FeedState)

  /**
    `getFeed`: only a null feed is fetched; a success dispatches `addFeed`
    with the answer, and a failure changes nothing (its `console.log` is
    not modelled).
   */
  function GetFeed(feed: FeedState, answer: FetchAnswer): (r: FeedEffect)
    ensures r.fetched <==> feed.None?
    ensures feed.Some? ==> r.feed == feed
    ensures feed.None? && answer.Fetched? ==> r.feed == answer.data
    ensures answer.FetchFailed? ==> r.feed == feed
  {
    if feed.Some? then FeedEffect(false, feed)
    else match answer
      case Fetched(data) => FeedEffect(true, AddFeed(feed, data))
      case FetchFailed(_) => FeedEffect(true, feed)
  }

  /** The store starts null, so the page first shows the loading view and fetches. */
  lemma InitialFeedLoads(answer: FetchAnswer)
    ensures SelectView(InitialState) == Loading
    ensures GetFeed(InitialState, answer).fetched
  {
  }

  /** Once a list has arrived, even an empty one, the effect never fetches again. */
  lemma ListedFeedNeverRefetched(feed: FeedState, answer: FetchAnswer, again: FetchAnswer)
    requires answer.Fetched? && answer.data.Some?
    ensures GetFeed(GetFeed(feed, answer).feed, again) == FeedEffect(false, GetFeed(feed, answer).feed)
    ensures SelectView(GetFeed(feed, answer).feed) != Loading
  {
  }

  /** A failed fetch leaves the page loading. */
  lemma FailedFetchKeepsLoading(error: string)
    ensures SelectView(GetFeed(None, FetchFailed(error)).feed) == Loading
  {
  }

  /**
    The card stack the page mounts (with edit mode off) holds exactly the
    feed list, so its front card is the feed's last entry.
   */
  lemma FeedMountsWholeList(feed: FeedState)
    requires SelectView(feed).Cards?
    ensures SwipeCards.Mount(SelectView(feed).users, false).cards == feed.value
    ensures SwipeCards.RenderDeck(SwipeCards.Mount(SelectView(feed).users, false).cards, false).Stack?
    ensures SwipeCards.Front(SelectView(feed).users) == Some(feed.value[|feed.value| - 1])
  {
  }
}
