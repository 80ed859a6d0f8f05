/**
  The swipeable card stack (src/components/SwipeCards.jsx).

  The stack is the sequence `cards`; its LAST element is the front card, the
  only one that can be dragged and the only one that shows the Ignore and
  Interested buttons. When a drag ends, the horizontal offset is classified
  against a threshold of 100. A decisive drag sends one request and, in the
  same handler, removes every card with the swiped `_id`. The request's
  outcome never touches the stack: a failure is only logged. A new `user`
  prop replaces the stack wholesale.

  The network is not modelled. A request is the value it would send,
  `(status, userId)`, appended to the deck's `sent` log, and its settlement
  is a separate event.
 */
module SwipeCards {
  import opened Optional
  import opened Seqs
  import opened Profiles

  /** The release distance beyond which a drag is a decision. */
  const Threshold: int := 100

  /** Request statuses: a right drag or the Interested button. */
  const Interested: string := "interested"
  /** A left drag. */
  const Ignored: string := "ignored"
  /** The Ignore button, which sends a different word than the left drag. */
  const IgnoreButton: string := "ignore"

  datatype Decision = Undecided | SwipedRight | SwipedLeft

  /** A request the stack sends: `POST /request/send/<status>/<userId>`. */
  datatype Request = Request(status: string, userId: string)

  function Abs(x: int): nat {
    if x < 0 then -x else x
  }

  /** The drag-end classification: beyond the threshold to either side decides. */
  function Classify(x: int): (d: Decision)
    ensures d == Undecided <==> -Threshold <= x <= Threshold
    ensures d == SwipedRight <==> x > Threshold
    ensures d == SwipedLeft <==> x < -Threshold
  {
    if Abs(x) > Threshold then
      if x > Threshold then SwipedRight else SwipedLeft
    else Undecided
  }

  /** The test "this card's `_id` is not one of `gone`". */
  function NotIn(gone: set<string>): Profile -> bool {
    (c: Profile) => c.uid !in gone
  }

  /** The test "this card's `_id` is not `uid`". */
  function NotUid(uid: string): Profile -> bool {
    (c: Profile) => c.uid != uid
  }

  /** The cards whose `_id` is not one of `gone`, in stack order. */
  function Without(cards: seq<Profile>, gone: set<string>): seq<Profile> {
    Filter(cards, NotIn(gone))
  }

  /** `pv.filter(v => v._id !== uid)`: the eviction a decisive drag performs. */
  function Evict(cards: seq<Profile>, uid: string): (r: seq<Profile>)
    ensures forall c :: c in r <==> c in cards && c.uid != uid
    ensures |r| <= |cards|
  {
    Filter(cards, NotUid(uid))
  }

  /** What a drag end does to the stack, and the request it sends, if any. */
  datatype DragResult = DragResult(cards: seq<Profile>, request: Option<Request>)

  /**
    `handleDragEnd` of the card whose `_id` is `uid`, released at offset `x`.
    In edit mode it returns at once; otherwise a decisive offset sends one
    request for `uid` and evicts `uid` from the stack.
   */
  function HandleDragEnd(cards: seq<Profile>, isEdit: bool, uid: string, x: int): (r: DragResult)
    ensures isEdit || Abs(x) <= Threshold ==> r == DragResult(cards, None)
    ensures !isEdit && x > Threshold ==> r.request == Some(Request(Interested, uid))
    ensures !isEdit && x < -Threshold ==> r.request == Some(Request(Ignored, uid))
    ensures r.request.Some? ==> r.cards == Evict(cards, uid)
  {
    if isEdit then DragResult(cards, None)
    else match Classify(x)
      case Undecided => DragResult(cards, None)
      case SwipedRight => DragResult(Evict(cards, uid), Some(Request(Interested, uid)))
      case SwipedLeft => DragResult(Evict(cards, uid), Some(Request(Ignored, uid)))
  }

  /** `isFront`: the card at `i` has the `_id` of the last card. */
  predicate IsFront(cards: seq<Profile>, i: nat)
    requires i < |cards|
  {
    cards[i].uid == cards[|cards| - 1].uid
  }

  /** The front card, the last of the stack, if there is one. */
  function Front(cards: seq<Profile>): Option<Profile> {
    if |cards| == 0 then None else Some(cards[|cards| - 1])
  }

  /** The stacking tilt, in degrees, of the card at index `i`. */
  function StackOffset(cards: seq<Profile>, i: nat): int
    requires i < |cards|
  {
    if IsFront(cards, i) then 0 else if i % 2 == 1 then 3 else -3
  }

  /** Framer's `drag` prop: only the front card, and never in edit mode. */
  predicate DragEnabled(cards: seq<Profile>, i: nat, isEdit: bool)
    requires i < |cards|
  {
    IsFront(cards, i) && !isEdit
  }

  /** What is rendered for one card: its key, tilt, and what it lets the user do. */
  datatype CardView = CardView(uid: string, tilt: int, draggable: bool, showsButtons: bool)

  /** The stack as rendered: the "All done!" panel or the cards. */
  datatype DeckView = AllDone | Stack(views: seq<CardView>)

  function ViewOf(cards: seq<Profile>, i: nat, isEdit: bool): CardView
    requires i < |cards|
  {
    CardView(cards[i].uid, StackOffset(cards, i), DragEnabled(cards, i, isEdit), DragEnabled(cards, i, isEdit))
  }

  /**
    The render of `SwipeCards`: one view per card in stack order, or the
    exhausted panel for an empty stack. With distinct `_id`s, exactly the
    last card is untilted, and outside edit mode exactly the last card is
    interactive.
   */
  function RenderDeck(cards: seq<Profile>, isEdit: bool): (v: DeckView)
    ensures v.AllDone? <==> |cards| == 0
    ensures v.Stack? ==> |v.views| == |cards|
    ensures v.Stack? ==> forall i :: 0 <= i < |cards| ==> v.views[i].uid == cards[i].uid
    ensures v.Stack? ==> v.views[|cards| - 1].tilt == 0 && v.views[|cards| - 1].draggable == !isEdit
    ensures v.Stack? ==> forall i :: 0 <= i < |cards| && cards[i].uid == cards[|cards| - 1].uid ==> v.views[i].tilt == 0
    ensures v.Stack? ==> forall i :: 0 <= i < |cards| && cards[i].uid != cards[|cards| - 1].uid ==>
              v.views[i].tilt == (if i % 2 == 1 then 3 else -3)
    ensures v.Stack? && isEdit ==> forall i :: 0 <= i < |cards| ==> !v.views[i].draggable && !v.views[i].showsButtons
    ensures v.Stack? && DistinctUids(cards) ==>
              forall i :: 0 <= i < |cards| ==> (v.views[i].tilt == 0 <==> i == |cards| - 1)
    ensures v.Stack? && DistinctUids(cards) && !isEdit ==>
              forall i :: 0 <= i < |cards| ==> (v.views[i].draggable <==> i == |cards| - 1)
    ensures v.Stack? ==> forall i :: 0 <= i < |cards| ==>
              && (v.views[i].draggable <==> cards[i].uid == cards[|cards| - 1].uid && !isEdit)
              && v.views[i].showsButtons == v.views[i].draggable
  {
    if |cards| == 0 then AllDone
    else Stack(seq(|cards|, i requires 0 <= i < |cards| => ViewOf(cards, i, isEdit)))
  }

  /**
    With distinct `_id`s every card below the front is tilted: +3 at an odd
    index, -3 at an even one, so neighbours below the front lean in opposite
    directions, which fans out the deck.
   */
  lemma TiltAlternates(cards: seq<Profile>, i: nat)
    requires DistinctUids(cards)
    requires i + 1 < |cards|
    ensures StackOffset(cards, i) == (if i % 2 == 1 then 3 else -3)
    ensures i + 2 < |cards| ==> StackOffset(cards, i) + StackOffset(cards, i + 1) == 0
  {
  }

  /** Evicting one `_id` is removing the set holding only that `_id`. */
  lemma EvictIsWithout(cards: seq<Profile>, uid: string)
    ensures Evict(cards, uid) == Without(cards, {uid})
  {
    FilterAgreeing(cards, NotUid(uid), NotIn({uid}));
  }

  /** Removing no `_id` leaves the stack as it is. */
  lemma WithoutNothing(cards: seq<Profile>)
    ensures Without(cards, {}) == cards
  {
    FilterKeepsAll(cards, NotIn({}));
  }

  /** Removing one set of `_id`s and then another is removing their union. */
  lemma WithoutWithout(cards: seq<Profile>, a: set<string>, b: set<string>)
    ensures Without(Without(cards, a), b) == Without(cards, a + b)
  {
    FilterCompose(cards, NotIn(a), NotIn(b), NotIn(a + b));
  }

  /** Eviction keeps the surviving cards in their relative order. */
  lemma EvictPreservesOrder(front: seq<Profile>, back: seq<Profile>, uid: string)
    ensures Evict(front + back, uid) == Evict(front, uid) + Evict(back, uid)
  {
    FilterAppend(front, back, NotUid(uid));
  }

  /** Evicting an `_id` that is not in the stack changes nothing. */
  lemma EvictAbsentIsNoop(cards: seq<Profile>, uid: string)
    requires forall i :: 0 <= i < |cards| ==> cards[i].uid != uid
    ensures Evict(cards, uid) == cards
  {
    FilterKeepsAll(cards, NotUid(uid));
  }

  /** Evicting the same `_id` twice is evicting it once. */
  lemma EvictIdempotent(cards: seq<Profile>, uid: string)
    ensures Evict(Evict(cards, uid), uid) == Evict(cards, uid)
  {
    FilterIdempotent(cards, NotUid(uid));
  }

  /** The stack shrinks exactly when some card carries the evicted `_id`. */
  lemma EvictShrinksIffPresent(cards: seq<Profile>, uid: string)
    ensures |Evict(cards, uid)| < |cards| <==> exists i :: 0 <= i < |cards| && cards[i].uid == uid
  {
    FilterShrinksIffSomeDropped(cards, NotUid(uid));
  }

  /**
    With distinct `_id`s, evicting the front card drops exactly the last
    element, and the card that was second to last becomes the front.
   */
  lemma EvictFrontRevealsNext(cards: seq<Profile>)
    requires DistinctUids(cards)
    requires |cards| > 0
    ensures Evict(cards, cards[|cards| - 1].uid) == cards[..|cards| - 1]
    ensures |cards| > 1 ==> Front(Evict(cards, cards[|cards| - 1].uid)) == Some(cards[|cards| - 2])
    ensures |cards| == 1 ==> RenderDeck(Evict(cards, cards[0].uid), false) == AllDone
  {
    var n := |cards|;
    var uid := cards[n - 1].uid;
    assert cards == cards[..n - 1] + [cards[n - 1]];
    EvictPreservesOrder(cards[..n - 1], [cards[n - 1]], uid);
    EvictAbsentIsNoop(cards[..n - 1], uid);
    assert Evict([cards[n - 1]], uid) == [];
  }

  /**
    A decisive drag sends exactly one request, for the dragged card, with the
    status of its direction; afterwards no card with that `_id` is left and
    every other card is, in the same order.
   */
  lemma DecisiveDragEvicts(cards: seq<Profile>, uid: string, x: int)
    requires Abs(x) > Threshold
    ensures HandleDragEnd(cards, false, uid, x).request.Some?
    ensures HandleDragEnd(cards, false, uid, x).request.value.userId == uid
    ensures HandleDragEnd(cards, false, uid, x).request.value.status == (if x > 0 then Interested else Ignored)
    ensures forall i :: 0 <= i < |HandleDragEnd(cards, false, uid, x).cards| ==>
              HandleDragEnd(cards, false, uid, x).cards[i].uid != uid
    ensures HandleDragEnd(cards, false, uid, x).cards == Without(cards, {uid})
  {
    EvictIsWithout(cards, uid);
  }

  /**
    A second drag end for a card already evicted leaves the stack as it is,
    but it still sends its request again: nothing deduplicates requests.
   */
  lemma RepeatedDragResendsButKeepsStack(cards: seq<Profile>, uid: string, x: int)
    requires Abs(x) > Threshold
    ensures var first := HandleDragEnd(cards, false, uid, x);
            var second := HandleDragEnd(first.cards, false, uid, x);
            second.cards == first.cards && second.request == first.request && second.request.Some?
  {
    EvictIdempotent(cards, uid);
  }

  /** How a sent request settled. */
  datatype Outcome = Delivered | Failed(error: string)

  /**
    The stack component's state: its cards, whether it is in preview (edit)
    mode, every request it has sent so far, and what it has logged.
   */
  datatype Deck = Deck(cards: seq<Profile>, isEdit: bool, sent: seq<Request>, errorLog: seq<string>)

  /** `useState(user)`: a freshly mounted stack shows the `user` prop as is. */
  function Mount(user: seq<Profile>, isEdit: bool): (d: Deck)
    ensures d.cards == user && d.isEdit == isEdit && d.sent == [] && d.errorLog == []
  {
    Deck(user, isEdit, [], [])
  }

  /**
    A freshly mounted stack renders the `user` prop: the exhausted panel
    exactly when it is empty, otherwise its `_id`s in order with its last
    entry untilted; nothing has been sent or logged yet.
   */
  lemma MountShowsUser(user: seq<Profile>, isEdit: bool)
    ensures var d := Mount(user, isEdit); d.sent == [] && d.errorLog == [] && d.isEdit == isEdit
    ensures RenderDeck(Mount(user, isEdit).cards, isEdit).AllDone? <==> |user| == 0
    ensures |user| > 0 ==>
              var v := RenderDeck(Mount(user, isEdit).cards, isEdit);
              && |v.views| == |user|
              && (forall i :: 0 <= i < |user| ==> v.views[i].uid == user[i].uid)
              && v.views[|user| - 1].tilt == 0
  {
  }

  /** What can happen to a mounted stack. `index` is a position in the current `cards`. */
  datatype Event =
    | UserChanged(user: seq<Profile>)
    | DragEnded(index: nat, x: int)
    | IgnorePressed(index: nat)
    | InterestedPressed(index: nat)
    | RequestSettled(outcome: Outcome)

  /** The `_id`s the event evicts from `d`: a decisive drag on an enabled card. */
  ghost function EvictedBy(d: Deck, e: Event): set<string> {
    if e.DragEnded? && e.index < |d.cards| && DragEnabled(d.cards, e.index, d.isEdit)
       && Classify(e.x) != Undecided
    then {d.cards[e.index].uid}
    else {}
  }

  /** A button press on the card at `i`: shown only on the front card outside edit mode. */
  function Press(d: Deck, i: nat, status: string): Deck {
    if i < |d.cards| && DragEnabled(d.cards, i, d.isEdit)
    then d.(sent := d.sent + [Request(status, d.cards[i].uid)])
    else d
  }

  /**
    One event. A `user` change replaces the cards (the sync effect). A drag
    end reaches `handleDragEnd` only for a card Framer lets drag. The buttons
    only send. A settled request leaves cards and requests alone; a failure
    is appended to the log.
   */
  function Step(d: Deck, e: Event): (d': Deck)
    ensures d'.isEdit == d.isEdit
    ensures d.sent <= d'.sent && |d'.sent| <= |d.sent| + 1
    ensures e.UserChanged? ==> d'.cards == e.user
    ensures !e.UserChanged? ==> d'.cards == Without(d.cards, EvictedBy(d, e))
    ensures forall u :: u in EvictedBy(d, e) ==> |d'.sent| == |d.sent| + 1 && d'.sent[|d.sent|].userId == u
    ensures e.RequestSettled? ==> d'.cards == d.cards && d'.sent == d.sent
    ensures e.DragEnded? && EvictedBy(d, e) == {} ==> d' == d
    ensures (&& e.DragEnded? && e.index < |d.cards| && DragEnabled(d.cards, e.index, d.isEdit)
             && Classify(e.x) != Undecided) ==>
              d'.sent == d.sent + [Request(if e.x > Threshold then Interested else Ignored, d.cards[e.index].uid)]
    ensures !e.RequestSettled? ==> d'.errorLog == d.errorLog
    ensures e.UserChanged? ==> d' == d.(cards := e.user)
    ensures (e.IgnorePressed? || e.InterestedPressed?) ==>
              d' == (if e.index < |d.cards| && DragEnabled(d.cards, e.index, d.isEdit)
                     then d.(sent := d.sent + [Request(if e.IgnorePressed? then IgnoreButton else Interested, d.cards[e.index].uid)])
                     else d)
  {
    match e
    case UserChanged(user) => d.(cards := user)
    case DragEnded(i, x) =>
      if i < |d.cards| && DragEnabled(d.cards, i, d.isEdit) then
        var r := HandleDragEnd(d.cards, d.isEdit, d.cards[i].uid, x);
        if r.request.Some? then
          EvictIsWithout(d.cards, d.cards[i].uid);
          d.(cards := r.cards, sent := d.sent + ToSeq(r.request))
        else
          WithoutNothing(d.cards);
          d
      else
        WithoutNothing(d.cards);
        d
    case IgnorePressed(i) => WithoutNothing(d.cards); Press(d, i, IgnoreButton)
    case InterestedPressed(i) => WithoutNothing(d.cards); Press(d, i, Interested)
    case RequestSettled(outcome) =>
      WithoutNothing(d.cards);
      if outcome.Failed? then d.(errorLog := d.errorLog + [outcome.error]) else d
  }

  /** The Ignore button sends "ignore", the left drag "ignored"; neither button evicts. */
  lemma ButtonsSendWithoutEvicting(d: Deck)
    requires |d.cards| > 0 && !d.isEdit
    ensures Step(d, IgnorePressed(|d.cards| - 1)).cards == d.cards
    ensures Step(d, IgnorePressed(|d.cards| - 1)).sent == d.sent + [Request(IgnoreButton, d.cards[|d.cards| - 1].uid)]
    ensures Step(d, InterestedPressed(|d.cards| - 1)).cards == d.cards
    ensures Step(d, InterestedPressed(|d.cards| - 1)).sent == d.sent + [Request(Interested, d.cards[|d.cards| - 1].uid)]
    ensures IgnoreButton != Ignored
  {
  }

  /** A settled request, delivered or failed, never puts a card back nor removes one. */
  lemma SettlementNeverRollsBack(d: Deck, o: Outcome)
    ensures Step(d, RequestSettled(o)).cards == d.cards
    ensures o.Failed? ==> Step(d, RequestSettled(o)).errorLog == d.errorLog + [o.error]
    ensures o.Delivered? ==> Step(d, RequestSettled(o)) == d
  {
  }

  /** Events applied in order. */
  function Run(d: Deck, evs: seq<Event>): Deck
    decreases |evs|
  {
    if |evs| == 0 then d else Run(Step(d, evs[0]), evs[1..])
  }

  /** Running `evs` and then `e` is stepping the result of `evs` by `e`. */
  lemma {:induction false} RunSnoc(d: Deck, evs: seq<Event>, e: Event)
    ensures Run(d, evs + [e]) == Step(Run(d, evs), e)
    decreases |evs|
  {
    if |evs| == 0 {
      assert evs + [e] == [e];
      assert [e][1..] == [];
    } else {
      assert (evs + [e])[0] == evs[0];
      assert (evs + [e])[1..] == evs[1..] + [e];
      RunSnoc(Step(d, evs[0]), evs[1..], e);
    }
  }

  /** A new `user` prop discards every earlier eviction: the stack is the new list. */
  lemma ReloadDiscardsEvictions(d: Deck, evs: seq<Event>, user: seq<Profile>)
    ensures Run(d, evs + [UserChanged(user)]).cards == user
  {
    RunSnoc(d, evs, UserChanged(user));
  }

  /** No event of `evs` is a change of the `user` prop. */
  predicate NoReload(evs: seq<Event>) {
    forall i :: 0 <= i < |evs| ==> !evs[i].UserChanged?
  }

  /** The `_id`s evicted while running `evs`. */
  ghost function Swiped(d: Deck, evs: seq<Event>): set<string>
    decreases |evs|
  {
    if |evs| == 0 then {} else EvictedBy(d, evs[0]) + Swiped(Step(d, evs[0]), evs[1..])
  }

  /**
    Between two `user` changes the stack is always the mounted list minus the
    swiped `_id`s, in the original order, and a request was sent for each
    swiped `_id`.
   */
  lemma {:induction false} RunKeepsMountedOrder(d: Deck, evs: seq<Event>)
    requires NoReload(evs)
    ensures Run(d, evs).cards == Without(d.cards, Swiped(d, evs))
    ensures d.sent <= Run(d, evs).sent
    ensures forall u :: u in Swiped(d, evs) ==> exists r :: r in Run(d, evs).sent && r.userId == u
    decreases |evs|
  {
    if |evs| == 0 {
      WithoutNothing(d.cards);
    } else {
      var d1 := Step(d, evs[0]);
      var rest := evs[1..];
      assert NoReload(rest) by {
        forall i | 0 <= i < |rest|
          ensures !rest[i].UserChanged?
        {
          assert rest[i] == evs[i + 1];
        }
      }
      RunKeepsMountedOrder(d1, rest);
      WithoutWithout(d.cards, EvictedBy(d, evs[0]), Swiped(d1, rest));
      var final := Run(d, evs);
      assert final == Run(d1, rest);
      forall u | u in Swiped(d, evs)
        ensures exists r :: r in final.sent && r.userId == u
      {
        if u in EvictedBy(d, evs[0]) {
          var r := d1.sent[|d.sent|];
          assert r == final.sent[|d.sent|];
          assert r in final.sent && r.userId == u;
        }
      }
    }
  }
}
