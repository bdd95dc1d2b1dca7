/**
  The game state of game/game.go: the phase and its JSON names, players with
  their hands, dealing answer cards to players, and starting a game.

  A `Player` is an object (its methods change its hand in place); a `Game`
  owns one `PlayDeck` and a sequence of distinct players. Dealing is specified
  by the pure functions `DealInto` and `DealAllFrom`, which replay the draws
  one by one on values; the lemmas below prove that dealing moves cards from
  the answer piles into hands without losing or making any.
*/
module Games {
  import opened Results
  import opened Cards

  /** The number of cards every hand is topped up to when a game starts. */
  const DefaultHandSize := 10

  /** `GamePhase` is a Go `int`: any value can be stored, five are named. */
  newtype GamePhase = int

  const Lobby: GamePhase := 0
  const RoundInProgress: GamePhase := 1
  const WinnerSelection: GamePhase := 2
  const EndOfRound: GamePhase := 3
  const EndOfGame: GamePhase := 4

  /** The JSON name of each named phase, indexed by the phase's value. */
  const PhaseNames: seq<string> := ["lobby", "roundInProgress", "winnerSelection", "endOfRound", "endOfGame"]

  const InvalidPhaseError := "Invalid GamePhase value"

  /**
    The name of a phase (game/game.go:25-29). Only the five named phases have
    one: indexing the name table with any other value is out of range.
  */
  function MarshalJSON(p: GamePhase): (r: string)
    requires Lobby <= p <= EndOfGame
    ensures UnmarshalJSON(r) == Ok(p)
  {
    PhaseNames[p as int]
  }

  /**
    The phase a name stands for (game/game.go:31-47); any string other than
    the five names is rejected.
  */
  function UnmarshalJSON(input: string): (r: Result<GamePhase>)
    ensures r.Ok? <==> input in PhaseNames
    ensures r.Ok? ==> Lobby <= r.value <= EndOfGame && PhaseNames[r.value as int] == input
    ensures r.Err? ==> r.error == InvalidPhaseError
  {
    // game/game.go:32 switches on a byte slice, which Go cannot compare with strings; the
    // input's text is meant. game/game.go:34-42 assign to the pointer `p` itself; storing
    // through it (`*p = ...`) is meant.
    if input == "lobby" then Ok(Lobby)
    else if input == "roundInProgress" then Ok(RoundInProgress)
    else if input == "winnerSelection" then Ok(WinnerSelection)
    else if input == "endOfRound" then Ok(EndOfRound)
    else if input == "endOfGame" then Ok(EndOfGame)
    // game/game.go:44 calls `errors.Error`, which does not exist; `errors.New` is meant.
    else Err(InvalidPhaseError)
  }

  /** Distinct phases have distinct names. */
  lemma MarshalJSONInjective(p: GamePhase, q: GamePhase)
    requires Lobby <= p <= EndOfGame && Lobby <= q <= EndOfGame
    ensures MarshalJSON(p) == MarshalJSON(q) ==> p == q
  {
    if MarshalJSON(p) == MarshalJSON(q) {
      assert UnmarshalJSON(MarshalJSON(p)) == Ok(p);
    }
  }

  /** A name that decodes encodes back to itself. */
  lemma UnmarshalMarshalRoundTrip(input: string)
    requires UnmarshalJSON(input).Ok?
    ensures MarshalJSON(UnmarshalJSON(input).value) == input
  {
  }

  /** The account a player plays under (`User`, game/game.go:49-52). */
  datatype User = User(id: int, username: string)

  /**
    The card a failed `AnswerDeck.Draw` returns alongside its error: Go's zero
    `AnswerCard` (game/cards.go:88 writes `nil`, which a struct result cannot hold).
  */
  const ZeroAnswer := AnswerCard(0, "")

  const NotInHandError := "card with id not in hand"

  const MaxPointsError := "max points not set"

  /** The index of the first card in `hand` whose id is `id`, if any. */
  function FirstWithId(hand: seq<AnswerCard>, id: int): (r: Option<nat>)
    ensures r.Some? ==> r.value < |hand| && hand[r.value].id == id
    ensures r.Some? ==> forall j :: 0 <= j < r.value ==> hand[j].id != id
    ensures r.None? ==> forall j :: 0 <= j < |hand| ==> hand[j].id != id
  {
    if hand == [] then None
    else if hand[0].id == id then Some(0)
    else match FirstWithId(hand[1..], id)
      case None => None
      case Some(i) => Some(i + 1)
  }

  /** A player in a game (`Player`, game/game.go:54-58). */
  class Player {
    var user: Option<User>
    var hand: seq<AnswerCard>
    var score: int

    constructor (user: Option<User>, hand: seq<AnswerCard>, score: int)
      ensures this.user == user && this.hand == hand && this.score == score
    {
      this.user, this.hand, this.score := user, hand, score;
    }

    /** Adds `card` to the end of the hand (game/game.go:115-117). */
    method Gain(card: AnswerCard)
      modifies this
      ensures hand == old(hand) + [card]
      ensures score == old(score) && user == old(user)
    {
      // game/game.go:116 names the receiver `player`; it is `p`. The declared `error` result
      // is never set and the body has no `return`: gaining a card cannot fail.
      hand := hand + [card];
    }

    /**
      Draws one card from `source` and adds it to the hand (game/game.go:119-122).
      The draw's error is ignored, so when both piles are empty the zero card
      is added.
    */
    method Draw(source: AnswerDeck, picks: seq<int>)
      requires source.deck == [] ==> ValidPicks(picks, |source.discardPile|)
      modifies this, source
      ensures var d := DrawFrom(old(source.State()), picks);
        source.State() == d.piles && hand == old(hand) + [if d.card.Ok? then d.card.value else ZeroAnswer]
      ensures score == old(score) && user == old(user)
    {
      var card := source.Draw(picks);
      // game/game.go:121 names the receiver `player`; it is `p`.
      hand := hand + [if card.Ok? then card.value else ZeroAnswer];
    }

    /**
      Removes the first card with the given id from the hand, keeping the order
      of the others, and passes it to `discard` (game/game.go:124-134). Without
      such a card it fails and changes nothing.
    */
    method Discard(discard: AnswerDeck, id: int) returns (r: Outcome)
      modifies this, discard
      ensures FirstWithId(old(hand), id).None? ==>
        r == Fail(NotInHandError) && hand == old(hand) && discard.State() == old(discard.State())
      ensures FirstWithId(old(hand), id).Some? ==>
        var i := FirstWithId(old(hand), id).value;
        r == Pass && hand == old(hand)[..i] + old(hand)[i + 1..] &&
        discard.discardPile == old(discard.discardPile) + [old(hand)[i]] && discard.deck == old(discard.deck)
      ensures score == old(score) && user == old(user)
    {
      var i := 0;
      while i < |hand|
        invariant 0 <= i <= |hand| && hand == old(hand)
        invariant forall j :: 0 <= j < i ==> hand[j].id != id
        invariant discard.State() == old(discard.State()) && score == old(score) && user == old(user)
      {
        var card := hand[i];
        if card.id == id {
          // game/game.go:128 adds two prefixes with `+`; the hand without card `i` is meant.
          hand := hand[..i] + hand[i + 1..];
          discard.Discard(card);
          return Pass;
        }
        i := i + 1;
      }
      return Fail(NotInHandError);
    }
  }

  /**
    What `Player.Draw` does to the cards in play: from non-empty piles it
    moves one card into the hand; from empty piles it adds the zero card,
    which neither pile held, so that draw makes a card.
  */
  lemma PlayerDrawCards(hand: seq<AnswerCard>, piles: Piles<AnswerCard>, picks: seq<int>)
    requires piles.draw == [] ==> ValidPicks(picks, |piles.discard|)
    ensures var d := DrawFrom(piles, picks);
      var next := hand + [if d.card.Ok? then d.card.value else ZeroAnswer];
      multiset(next) + PileCards(d.piles) ==
        multiset(hand) + PileCards(piles) + (if piles.draw == [] && piles.discard == [] then multiset{ZeroAnswer} else multiset{})
  {
    var d := DrawFrom(piles, picks);
    var x := if d.card.Ok? then d.card.value else ZeroAnswer;
    DrawConservesCards(piles, picks);
    assert multiset(hand + [x]) == multiset(hand) + multiset{x};
  }

  /** The cards a player submits for a round (`CardSubmission`, game/game.go:143-146). */
  datatype CardSubmission = CardSubmission(cards: seq<AnswerCard>, player: Player)

  /** One round of play (`Round`, game/game.go:136-141); `winner` is a nil pointer until chosen. */
  datatype Round = Round(cardSubmissions: seq<CardSubmission>, czar: Player, question: QuestionCard, winner: Option<Player>)

  function Min(a: int, b: int): int { if a <= b then a else b }

  function Max(a: int, b: int): int { if a <= b then b else a }

  /** A hand and the answer piles after dealing. */
  datatype Dealt = Dealt(hand: seq<AnswerCard>, piles: Piles<AnswerCard>)

  /**
    The hand and answer piles after `count` draws into `hand` (the loop of
    game/game.go:105-112): a successful draw appends its card, a failed one is
    skipped and the loop goes on.
  */
  function DealInto(hand: seq<AnswerCard>, piles: Piles<AnswerCard>, count: int, picks: seq<int>): (r: Dealt)
    requires ValidPicks(picks, |piles.discard|)
    ensures |r.piles.discard| <= |piles.discard|
    decreases count
  {
    if count <= 0 then Dealt(hand, piles)
    else
      var d := DrawFrom(piles, picks);
      DealInto(if d.card.Ok? then hand + [d.card.value] else hand, d.piles, count - 1, picks)
  }

  /**
    Dealing adds one card per card the piles still hold and never more than
    `count`; the piles lose as many cards as the hand gains.
  */
  lemma {:induction false} DealIntoLength(hand: seq<AnswerCard>, piles: Piles<AnswerCard>, count: int, picks: seq<int>)
    requires ValidPicks(picks, |piles.discard|)
    ensures var r := DealInto(hand, piles, count, picks);
      |r.hand| == |hand| + Min(Max(count, 0), |piles.draw| + |piles.discard|) &&
      |r.piles.draw| + |r.piles.discard| == |piles.draw| + |piles.discard| - (|r.hand| - |hand|)
    decreases count
  {
    if count > 0 {
      var d := DrawFrom(piles, picks);
      var next := if d.card.Ok? then hand + [d.card.value] else hand;
      DealIntoLength(next, d.piles, count - 1, picks);
    }
  }

  /** Dealing only adds cards: the old hand stays in front, in its old order. */
  lemma {:induction false} DealIntoKeepsHand(hand: seq<AnswerCard>, piles: Piles<AnswerCard>, count: int, picks: seq<int>)
    requires ValidPicks(picks, |piles.discard|)
    ensures var r := DealInto(hand, piles, count, picks);
      |hand| <= |r.hand| && r.hand[..|hand|] == hand
    decreases count
  {
    if count > 0 {
      var d := DrawFrom(piles, picks);
      var next := if d.card.Ok? then hand + [d.card.value] else hand;
      DealIntoKeepsHand(next, d.piles, count - 1, picks);
      var r := DealInto(next, d.piles, count - 1, picks).hand;
      assert r[..|hand|] == r[..|next|][..|hand|];
    }
  }

  /** One draw into a hand moves the drawn card, if any, from the piles to the hand. */
  lemma DrawIntoConservesCards(hand: seq<AnswerCard>, piles: Piles<AnswerCard>, picks: seq<int>)
    requires ValidPicks(picks, |piles.discard|)
    ensures var d := DrawFrom(piles, picks);
      var next := if d.card.Ok? then hand + [d.card.value] else hand;
      multiset(next) + PileCards(d.piles) == multiset(hand) + PileCards(piles)
  {
    var d := DrawFrom(piles, picks);
    DrawConservesCards(piles, picks);
    if d.card.Ok? {
      assert multiset(hand + [d.card.value]) == multiset(hand) + multiset{d.card.value};
    }
  }

  /** Dealing moves cards from the piles to the hand: together they hold the same cards as before. */
  lemma {:induction false} DealIntoConservesCards(hand: seq<AnswerCard>, piles: Piles<AnswerCard>, count: int, picks: seq<int>)
    requires ValidPicks(picks, |piles.discard|)
    ensures var r := DealInto(hand, piles, count, picks);
      multiset(r.hand) + PileCards(r.piles) == multiset(hand) + PileCards(piles)
    decreases count
  {
    if count > 0 {
      var d := DrawFrom(piles, picks);
      var next := if d.card.Ok? then hand + [d.card.value] else hand;
      DrawIntoConservesCards(hand, piles, picks);
      DealIntoConservesCards(next, d.piles, count - 1, picks);
    }
  }

  /** The hands of all players and the answer piles after dealing. */
  datatype DealtAll = DealtAll(hands: seq<seq<AnswerCard>>, piles: Piles<AnswerCard>)

  /**
    The hands and answer piles after topping up hands `i`, `i + 1`, ... in
    seat order to `upTo` cards each (game/game.go:97-113). Every hand keeps
    its old cards in front and ends with at most `upTo` cards unless it
    already held more.
  */
  function DealAllFrom(hands: seq<seq<AnswerCard>>, piles: Piles<AnswerCard>, upTo: int, picks: seq<int>, i: nat): (r: DealtAll)
    requires i <= |hands| && ValidPicks(picks, |piles.discard|)
    ensures |r.hands| == |hands| && |r.piles.discard| <= |piles.discard|
    decreases |hands| - i
  {
    if i == |hands| then DealtAll(hands, piles)
    else
      var d := DealInto(hands[i], piles, upTo - |hands[i]|, picks);
      DealAllFrom(hands[i := d.hand], d.piles, upTo, picks, i + 1)
  }

  /**
    Dealing only adds cards behind each hand's old ones, and stops at `upTo`:
    no hand ends with more than `upTo` cards unless it already held more.
  */
  lemma {:induction false} DealAllKeepsHands(hands: seq<seq<AnswerCard>>, piles: Piles<AnswerCard>, upTo: int, picks: seq<int>, i: nat)
    requires i <= |hands| && ValidPicks(picks, |piles.discard|)
    ensures var r := DealAllFrom(hands, piles, upTo, picks, i);
      forall j :: 0 <= j < |hands| ==>
        |hands[j]| <= |r.hands[j]| <= Max(|hands[j]|, upTo) && r.hands[j][..|hands[j]|] == hands[j]
    decreases |hands| - i
  {
    if i < |hands| {
      var d := DealInto(hands[i], piles, upTo - |hands[i]|, picks);
      var next := hands[i := d.hand];
      DealAllFromStep(hands, piles, upTo, picks, i);
      DealAllKeepsHands(next, d.piles, upTo, picks, i + 1);
      var r := DealAllFrom(next, d.piles, upTo, picks, i + 1);
      forall j | 0 <= j < |hands|
        ensures |hands[j]| <= |r.hands[j]| <= Max(|hands[j]|, upTo) && r.hands[j][..|hands[j]|] == hands[j]
      {
        if j == i {
          DealIntoLength(hands[i], piles, upTo - |hands[i]|, picks);
          DealIntoKeepsHand(hands[i], piles, upTo - |hands[i]|, picks);
          assert r.hands[j][..|d.hand|] == d.hand;
          assert r.hands[j][..|hands[j]|] == r.hands[j][..|d.hand|][..|hands[j]|];
        }
      }
    }
  }

  /** Dealing from seat `i` on is topping up seat `i` and then dealing from seat `i + 1` on. */
  lemma DealAllFromStep(hands: seq<seq<AnswerCard>>, piles: Piles<AnswerCard>, upTo: int, picks: seq<int>, i: nat)
    requires i < |hands| && ValidPicks(picks, |piles.discard|)
    ensures var d := DealInto(hands[i], piles, upTo - |hands[i]|, picks);
      DealAllFrom(hands, piles, upTo, picks, i) == DealAllFrom(hands[i := d.hand], d.piles, upTo, picks, i + 1)
  {
  }

  /** Every card held by a sequence of hands. */
  function HandCards(hands: seq<seq<AnswerCard>>): multiset<AnswerCard>
  {
    if hands == [] then multiset{} else multiset(hands[0]) + HandCards(hands[1..])
  }

  /** Replacing one hand changes the cards held by all hands by exactly that replacement. */
  lemma {:induction false} HandCardsUpdate(hands: seq<seq<AnswerCard>>, i: nat, h: seq<AnswerCard>)
    requires i < |hands|
    ensures HandCards(hands[i := h]) + multiset(hands[i]) == HandCards(hands) + multiset(h)
    decreases i
  {
    if i > 0 {
      var updated := hands[i := h];
      assert updated[0] == hands[0] && updated[1..] == hands[1..][i - 1 := h];
      assert HandCards(updated) == multiset(hands[0]) + HandCards(hands[1..][i - 1 := h]);
      assert HandCards(hands) == multiset(hands[0]) + HandCards(hands[1..]);
      assert hands[1..][i - 1] == hands[i];
      HandCardsUpdate(hands[1..], i - 1, h);
      forall x
        ensures (HandCards(updated) + multiset(hands[i]))[x] == (HandCards(hands) + multiset(h))[x]
      {
        assert (HandCards(hands[1..][i - 1 := h]) + multiset(hands[i]))[x] == (HandCards(hands[1..]) + multiset(h))[x];
      }
    } else {
      assert hands[i := h][1..] == hands[1..];
    }
  }

  /** If `d` is swapped for `b` in one total and `b` for `d` in another, both exchanges leave the same net change. */
  lemma Exchange<T>(a: multiset<T>, b: multiset<T>, c: multiset<T>, d: multiset<T>, p: multiset<T>, q: multiset<T>)
    requires a + b == c + d && d + q == b + p
    ensures a + q == c + p
  {
    forall x
      ensures (a + q)[x] == (c + p)[x]
    {
      assert (a + b)[x] == (c + d)[x] && (d + q)[x] == (b + p)[x];
    }
  }

  /** Topping up hand `i` moves cards from the piles to that hand without losing or making any. */
  lemma DealOneConservesCards(hands: seq<seq<AnswerCard>>, piles: Piles<AnswerCard>, upTo: int, picks: seq<int>, i: nat)
    requires i < |hands| && ValidPicks(picks, |piles.discard|)
    ensures var d := DealInto(hands[i], piles, upTo - |hands[i]|, picks);
      HandCards(hands[i := d.hand]) + PileCards(d.piles) == HandCards(hands) + PileCards(piles)
  {
    var d := DealInto(hands[i], piles, upTo - |hands[i]|, picks);
    DealIntoConservesCards(hands[i], piles, upTo - |hands[i]|, picks);
    HandCardsUpdate(hands, i, d.hand);
    Exchange(HandCards(hands[i := d.hand]), multiset(hands[i]), HandCards(hands), multiset(d.hand), PileCards(piles), PileCards(d.piles));
  }

  /** Dealing to every player moves cards from the piles to the hands without losing or making any. */
  lemma {:induction false} DealAllConservesCards(hands: seq<seq<AnswerCard>>, piles: Piles<AnswerCard>, upTo: int, picks: seq<int>, i: nat)
    requires i <= |hands| && ValidPicks(picks, |piles.discard|)
    ensures var r := DealAllFrom(hands, piles, upTo, picks, i);
      HandCards(r.hands) + PileCards(r.piles) == HandCards(hands) + PileCards(piles)
    decreases |hands| - i
  {
    if i < |hands| {
      var d := DealInto(hands[i], piles, upTo - |hands[i]|, picks);
      var next := hands[i := d.hand];
      DealAllFromStep(hands, piles, upTo, picks, i);
      DealOneConservesCards(hands, piles, upTo, picks, i);
      DealAllConservesCards(next, d.piles, upTo, picks, i + 1);
      assert HandCards(next) + PileCards(d.piles) == HandCards(hands) + PileCards(piles);
    }
  }

  /**
    The number of draws game/game.go:104 asks for, as written: the hand's size
    minus the target. It is positive exactly when the hand already holds more
    than the target.
  */
  function DealCountAsWritten(hand: seq<AnswerCard>, upTo: int): (n: int)
    ensures n > 0 <==> |hand| > upTo
    ensures n <= 0 ==> n + (upTo - |hand|) == 0
  {
    |hand| - upTo
  }

  /**
    With the count as written, a short hand is never topped up and a hand
    already past the target keeps growing, while the missing-card count deals
    the short hand and leaves the full one alone.
  */
  lemma DealCountAsWrittenIsReversed(hand: seq<AnswerCard>, piles: Piles<AnswerCard>, upTo: int, picks: seq<int>)
    requires ValidPicks(picks, |piles.discard|) && |piles.draw| > 0
    ensures |hand| < upTo ==>
      DealInto(hand, piles, DealCountAsWritten(hand, upTo), picks).hand == hand &&
      |DealInto(hand, piles, upTo - |hand|, picks).hand| > |hand|
    ensures |hand| > upTo ==>
      |DealInto(hand, piles, DealCountAsWritten(hand, upTo), picks).hand| > Max(|hand|, upTo) &&
      DealInto(hand, piles, upTo - |hand|, picks).hand == hand
  {
    DealIntoLength(hand, piles, upTo - |hand|, picks);
    DealIntoLength(hand, piles, DealCountAsWritten(hand, upTo), picks);
  }

  /**
    Dealing to every seat as game/game.go:97-113 are written: each deal goes
    into the copy of the seat's player that `range` makes (lines 98-99) and
    asks for the count of line 104, so the draws come off the piles and no
    seat's hand changes.
  */
  function DealAllIntoCopies(hands: seq<seq<AnswerCard>>, piles: Piles<AnswerCard>, upTo: int, picks: seq<int>, i: nat): (r: DealtAll)
    requires i <= |hands| && ValidPicks(picks, |piles.discard|)
    ensures r.hands == hands
    ensures |r.piles.draw| + |r.piles.discard| <= |piles.draw| + |piles.discard|
    decreases |hands| - i
  {
    if i == |hands| then DealtAll(hands, piles)
    else
      var d := DealInto(hands[i], piles, DealCountAsWritten(hands[i], upTo), picks);
      DealIntoLength(hands[i], piles, DealCountAsWritten(hands[i], upTo), picks);
      DealAllIntoCopies(hands, d.piles, upTo, picks, i + 1)
  }

  /**
    Dealing as written loses cards: a hand holding more than `upTo` cards asks
    for its surplus, and that many cards, as far as the piles hold them, leave
    the piles and reach no hand. Dealing into the seats keeps every card.
  */
  lemma DealAllIntoCopiesLosesCards(hand: seq<AnswerCard>, piles: Piles<AnswerCard>, upTo: int, picks: seq<int>)
    requires ValidPicks(picks, |piles.discard|) && |piles.draw| > 0 && |hand| > upTo
    ensures var r := DealAllIntoCopies([hand], piles, upTo, picks, 0);
      r.hands == [hand] &&
      |PileCards(r.piles)| == |PileCards(piles)| - Min(|hand| - upTo, |piles.draw| + |piles.discard|)
    ensures var r := DealAllIntoCopies([hand], piles, upTo, picks, 0);
      HandCards(r.hands) + PileCards(r.piles) != HandCards([hand]) + PileCards(piles)
    ensures var r := DealAllFrom([hand], piles, upTo, picks, 0);
      HandCards(r.hands) + PileCards(r.piles) == HandCards([hand]) + PileCards(piles)
  {
    var count := DealCountAsWritten(hand, upTo);
    var d := DealInto(hand, piles, count, picks);
    DealIntoLength(hand, piles, count, picks);
    var r := DealAllIntoCopies([hand], piles, upTo, picks, 0);
    assert r == DealAllIntoCopies([hand], d.piles, upTo, picks, 1) == DealtAll([hand], d.piles);
    assert |PileCards(r.piles)| == |d.piles.draw| + |d.piles.discard| < |piles.draw| + |piles.discard| == |PileCards(piles)|;
    assert |HandCards(r.hands) + PileCards(r.piles)| < |HandCards([hand]) + PileCards(piles)|;
    DealAllConservesCards([hand], piles, upTo, picks, 0);
  }

  /** The hands of `players`, in seat order. */
  function Hands(players: seq<Player>): (r: seq<seq<AnswerCard>>)
    reads players
    ensures |r| == |players| && forall i :: 0 <= i < |players| ==> r[i] == players[i].hand
  {
    seq(|players|, i reads players requires 0 <= i < |players| => players[i].hand)
  }

  /** A game (`Game`, game/game.go:60-69). */
  class Game {
    // No operation of the game changes its identity, decks, point limit, name
    // or seating, so those are fixed when the game is made.
    const id: int
    const decks: seq<Deck>
    var gamePhase: GamePhase
    const maxPoints: int
    const name: string
    /** Held by value in Go: the game owns its play deck, which is never replaced. */
    const playDeck: PlayDeck
    /** Held by value in Go: each seat holds its own player. */
    const players: seq<Player>
    var round: Option<Round>

    /** Each seat holds its own player. */
    ghost predicate Valid()
    {
      forall i, j :: 0 <= i < j < |players| ==> players[i] != players[j]
    }

    /** A game in the lobby with no round yet and an empty play deck. */
    constructor (id: int, name: string, decks: seq<Deck>, maxPoints: int, players: seq<Player>)
      requires forall i, j :: 0 <= i < j < |players| ==> players[i] != players[j]
      ensures Valid() && fresh(playDeck)
      ensures this.id == id && this.name == name && this.decks == decks && this.maxPoints == maxPoints
      ensures this.players == players && gamePhase == Lobby && round == None
      ensures playDeck.answerDeck == null && playDeck.questionDeck == [] && playDeck.questionDiscard == []
    {
      this.id, this.name, this.decks, this.maxPoints, this.players := id, name, decks, maxPoints, players;
      gamePhase, round := Lobby, None;
      playDeck := new PlayDeck();
    }

    /**
      Tops `player`'s hand up to `upTo` cards from the answer deck
      (game/game.go:103-113); a failed draw is skipped, not fatal.
    */
    method Deal(player: Player, upTo: int, picks: seq<int>)
      requires playDeck.answerDeck != null
      requires ValidPicks(picks, |playDeck.answerDeck.discardPile|)
      modifies player, playDeck.answerDeck
      ensures var d := DealInto(old(player.hand), old(playDeck.answerDeck.State()), upTo - |old(player.hand)|, picks);
        player.hand == d.hand && playDeck.answerDeck.State() == d.piles
      ensures player.score == old(player.score) && player.user == old(player.user)
    {
      var answers := playDeck.answerDeck;
      // game/game.go:104 computes `len(player.Hand) - upTo`; the number of missing cards is meant.
      var numNew := upTo - |player.hand|;
      var i := 0;
      while i < numNew
        invariant 0 <= i && (i <= numNew || i == 0)
        invariant ValidPicks(picks, |answers.discardPile|)
        invariant DealInto(player.hand, answers.State(), numNew - i, picks)
               == DealInto(old(player.hand), old(answers.State()), upTo - |old(player.hand)|, picks)
        invariant player.score == old(player.score) && player.user == old(player.user)
      {
        var card := answers.Draw(picks);
        if card.Err? {
          // game/game.go:107-110 log the error and go on with the next draw.
          i := i + 1;
          continue;
        }
        player.Gain(card.value);
        i := i + 1;
      }
    }

    /** Tops every player's hand up to `upTo` cards, in seat order (game/game.go:97-101). */
    method DealAll(upTo: int, picks: seq<int>)
      requires Valid() && playDeck.answerDeck != null
      requires ValidPicks(picks, |playDeck.answerDeck.discardPile|)
      modifies playDeck.answerDeck, players
      ensures var d := DealAllFrom(old(Hands(players)), old(playDeck.answerDeck.State()), upTo, picks, 0);
        Hands(players) == d.hands && playDeck.answerDeck.State() == d.piles
      ensures forall j :: 0 <= j < |players| ==> players[j].score == old(players[j].score) && players[j].user == old(players[j].user)
    {
      var answers := playDeck.answerDeck;
      ghost var hands := Hands(players);
      ghost var target := DealAllFrom(hands, answers.State(), upTo, picks, 0);
      var i := 0;
      while i < |players|
        invariant 0 <= i <= |players| && |hands| == |players| && playDeck.answerDeck == answers
        invariant forall j :: 0 <= j < |players| ==> players[j].hand == hands[j]
        invariant ValidPicks(picks, |answers.discardPile|)
        invariant DealAllFrom(hands, answers.State(), upTo, picks, i) == target
        invariant forall j :: 0 <= j < |players| ==> players[j].score == old(players[j].score) && players[j].user == old(players[j].user)
      {
        var player := players[i];
        ghost var piles := answers.State();
        ghost var d := DealInto(hands[i], piles, upTo - |hands[i]|, picks);
        DealAllFromStep(hands, piles, upTo, picks, i);
        // game/game.go:98-99 deal into a copy made by `range`; each seat's player is meant.
        // Line 99 also leaves out the `upTo` argument; `DealAll`'s own `upTo` is meant.
        Deal(player, upTo, picks);
        assert player.hand == d.hand && answers.State() == d.piles;
        forall j | 0 <= j < |players| && j != i
          ensures players[j].hand == hands[j] && players[j].score == old(players[j].score) && players[j].user == old(players[j].user)
        {
          assert players[j] != player;
        }
        hands := hands[i := d.hand];
        i := i + 1;
      }
    }

    /**
      Starts the game (game/game.go:71-87): without max points it fails and
      changes nothing; otherwise it loads and shuffles the play deck, tops every
      hand up to the default size, puts the game in `RoundInProgress` and opens
      a round judged by the first player, on the question popped from the top
      of the question pile. The first player and a question card must exist.
    */
    method Start(answerPicks: seq<int>, questionPicks: seq<int>) returns (r: Outcome)
      requires Valid()
      requires maxPoints >= 1 ==> |players| > 0 && |QuestionsOf(decks, |decks|)| > 0
      requires ValidPicks(answerPicks, |AnswersOf(decks, |decks|)|)
      requires ValidPicks(questionPicks, |QuestionsOf(decks, |decks|)|)
      modifies this, playDeck, players
      ensures forall j :: 0 <= j < |players| ==> players[j].score == old(players[j].score) && players[j].user == old(players[j].user)
      ensures maxPoints < 1 ==>
        r == Fail(MaxPointsError) && gamePhase == old(gamePhase) && round == old(round) &&
        unchanged(playDeck) && Hands(players) == old(Hands(players))
      ensures maxPoints >= 1 ==>
        r == Pass && gamePhase == RoundInProgress && playDeck.answerDeck != null && fresh(playDeck.answerDeck)
      ensures maxPoints >= 1 ==>
        var answers := AnswersOf(decks, |decks|);
        var d := DealAllFrom(old(Hands(players)), Piles(Shuffled(answers, answerPicks, |answers|), []), DefaultHandSize, answerPicks, 0);
        playDeck.answerDeck != null && Hands(players) == d.hands && playDeck.answerDeck.State() == d.piles
      ensures maxPoints >= 1 ==>
        var questions := Shuffled(QuestionsOf(decks, |decks|), questionPicks, |QuestionsOf(decks, |decks|)|);
        round == Some(Round([], players[0], questions[|questions| - 1], None)) &&
        playDeck.QuestionPiles() == Piles(questions[..|questions| - 1], [])
    {
      if maxPoints < 1 {
        return Fail(MaxPointsError);
      }
      // game/game.go:76 passes the play deck to its own `Init`; the game's decks are meant.
      // `Init` never reports an error, so the error check that follows never fires.
      playDeck.Init(decks, answerPicks, questionPicks);
      DealAll(DefaultHandSize, answerPicks);
      // game/game.go:82-86 read and reslice a `QuestionDeck` field of the game and store
      // a card into a slice; popping the last card of the play deck's question pile is meant.
      var question := playDeck.questionDeck[|playDeck.questionDeck| - 1];
      playDeck.questionDeck := playDeck.questionDeck[..|playDeck.questionDeck| - 1];
      gamePhase, round := RoundInProgress, Some(Round([], players[0], question, None));
      // game/game.go:87 ends without a `return`; success is meant.
      r := Pass;
    }
  }
}
