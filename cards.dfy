/**
  The card piles of game/cards.go: source decks, the answer deck (a draw pile
  and a discard pile), the question piles of a play deck, and the Fisher-Yates
  shuffle that reorders a pile in place.

  The random source of `shuffle` is an oracle `picks`: when `n` slots are still
  unshuffled the loop swaps slot `n - 1` with slot `picks[n - 1]`, which stands
  for the value `r.Intn(n)` returns, so `0 <= picks[n - 1] < n`.
*/
module Cards {
  import opened Results

  datatype QuestionCard = QuestionCard(id: int, numAnswers: int, text: string)

  datatype AnswerCard = AnswerCard(id: int, text: string)

  /** A named bundle of source cards, read-only once loaded. */
  datatype Deck = Deck(id: int, answerCards: seq<AnswerCard>, name: string, questionCards: seq<QuestionCard>)

  /** The message both draw operations fail with (game/cards.go:88 and :116 use the same text). */
  const ExhaustedError := "answers deck and discard empty"

  /** The answer cards of the first `n` decks, deck after deck, in deck order. */
  function AnswersOf(decks: seq<Deck>, n: nat): seq<AnswerCard>
    requires n <= |decks|
  {
    if n == 0 then [] else AnswersOf(decks, n - 1) + decks[n - 1].answerCards
  }

  /** The question cards of the first `n` decks, deck after deck, in deck order. */
  function QuestionsOf(decks: seq<Deck>, n: nat): seq<QuestionCard>
    requires n <= |decks|
  {
    if n == 0 then [] else QuestionsOf(decks, n - 1) + decks[n - 1].questionCards
  }

  /** The oracle can drive a shuffle of up to `n` slots: each choice is a legal `r.Intn` result. */
  predicate ValidPicks(picks: seq<int>, n: nat)
  {
    n <= |picks| && forall i :: 0 <= i < n ==> 0 <= picks[i] <= i
  }

  /** `s` with the elements at `i` and `j` exchanged. */
  function Swap<T>(s: seq<T>, i: nat, j: nat): (r: seq<T>)
    requires i < |s| && j < |s|
    ensures |r| == |s|
  {
    s[i := s[j]][j := s[i]]
  }

  /** Exchanging two elements keeps the multiset of the sequence. */
  lemma SwapPermutes<T>(s: seq<T>, i: nat, j: nat)
    requires i < |s| && j < |s|
    ensures multiset(Swap(s, i, j)) == multiset(s)
  {
    var t := s[i := s[j]];
    assert multiset(t) == multiset(s) - multiset{s[i]} + multiset{s[j]};
  }

  /**
    The order the Fisher-Yates loop of game/cards.go:127-130 leaves `s` in when
    `n` slots remain to be processed: swap slot `n - 1` with the chosen slot,
    then carry on with `n - 1` slots.
  */
  function Shuffled<T>(s: seq<T>, picks: seq<int>, n: nat): (r: seq<T>)
    requires n <= |s| && ValidPicks(picks, n)
    ensures |r| == |s|
    decreases n
  {
    if n == 0 then s else Shuffled(Swap(s, n - 1, picks[n - 1]), picks, n - 1)
  }

  /** Whatever the oracle chooses, shuffling only reorders: the result is a permutation of `s`. */
  lemma {:induction false} ShuffledIsPermutation<T>(s: seq<T>, picks: seq<int>, n: nat)
    requires n <= |s| && ValidPicks(picks, n)
    ensures multiset(Shuffled(s, picks, n)) == multiset(s)
    decreases n
  {
    if n > 0 {
      var swapped := Swap(s, n - 1, picks[n - 1]);
      assert Shuffled(s, picks, n) == Shuffled(swapped, picks, n - 1);
      SwapPermutes(s, n - 1, picks[n - 1]);
      ShuffledIsPermutation(swapped, picks, n - 1);
    }
  }

  /** In-place Fisher-Yates shuffle of `vals` (game/cards.go:125-131), random source replaced by `picks`. */
  method Shuffle<T>(vals: array<T>, picks: seq<int>)
    requires ValidPicks(picks, vals.Length)
    modifies vals
    ensures vals[..] == Shuffled(old(vals[..]), picks, vals.Length)
  {
    // game/cards.go:125 takes a `[]interface{}`, yet lines 49, 58, 82 and 110 pass typed
    // slices; a shuffle over any element type is meant.
    var n := vals.Length;
    while n > 0
      invariant 0 <= n <= vals.Length && ValidPicks(picks, n)
      invariant Shuffled(vals[..], picks, n) == Shuffled(old(vals[..]), picks, vals.Length)
    {
      var randIndex := picks[n - 1];
      ghost var before := vals[..];
      assert Shuffled(before, picks, n) == Shuffled(Swap(before, n - 1, randIndex), picks, n - 1);
      var tmp := vals[n - 1];
      vals[n - 1] := vals[randIndex];
      vals[randIndex] := tmp;
      assert vals[..] == Swap(before, n - 1, randIndex);
      n := n - 1;
    }
  }

  /**
    Shuffles a slice that the caller then keeps: the Go code shuffles the
    backing array of the slice it has just stored in a field; here the slice's
    contents are copied into a fresh array, shuffled there and read back.
  */
  method ShuffleSlice<T>(s: seq<T>, picks: seq<int>) returns (r: seq<T>)
    requires ValidPicks(picks, |s|)
    ensures r == Shuffled(s, picks, |s|)
  {
    var vals := new T[|s|](i requires 0 <= i < |s| => s[i]);
    assert vals[..] == s;
    Shuffle(vals, picks);
    r := vals[..];
  }

  /** A draw pile and a discard pile; the draw pile's top card is its last element. */
  datatype Piles<T> = Piles(draw: seq<T>, discard: seq<T>)

  /** Every card held by the two piles. */
  function PileCards<T>(p: Piles<T>): multiset<T>
  {
    multiset(p.draw) + multiset(p.discard)
  }

  /** What a draw returns and the piles it leaves behind. */
  datatype Drawn<T> = Drawn(card: Result<T>, piles: Piles<T>)

  /**
    One draw from a pair of piles (game/cards.go:75-89 for answers, 103-117 for
    questions): pop the top of the draw pile; if it is empty, first make the
    shuffled discard pile the draw pile and empty the discard pile; if both are
    empty, fail and change nothing.
  */
  function DrawFrom<T>(p: Piles<T>, picks: seq<int>): (r: Drawn<T>)
    requires p.draw == [] ==> ValidPicks(picks, |p.discard|)
    ensures r.card.Ok? <==> p.draw != [] || p.discard != []
    ensures p.draw != [] ==>
      r.card == Ok(p.draw[|p.draw| - 1]) && r.piles == Piles(p.draw[..|p.draw| - 1], p.discard)
    ensures p.draw == [] && p.discard != [] ==> r.piles.discard == [] && |r.piles.draw| == |p.discard| - 1
    ensures r.card.Err? ==> r.card.error == ExhaustedError && r.piles == p
    ensures |r.piles.discard| <= |p.discard|
  {
    if |p.draw| > 0 then
      Drawn(Ok(p.draw[|p.draw| - 1]), Piles(p.draw[..|p.draw| - 1], p.discard))
    else if |p.discard| > 0 then
      var s := Shuffled(p.discard, picks, |p.discard|);
      Drawn(Ok(s[|s| - 1]), Piles(s[..|s| - 1], []))
    else
      Drawn(Err(ExhaustedError), p)
  }

  /** Removing the last element of a non-empty sequence removes exactly that element from its multiset. */
  lemma DropLastMultiset<T>(s: seq<T>)
    requires |s| > 0
    ensures multiset(s) == multiset(s[..|s| - 1]) + multiset{s[|s| - 1]}
  {
    assert s == s[..|s| - 1] + [s[|s| - 1]];
  }

  /**
    A draw neither loses nor makes a card: a successful draw leaves the piles
    holding exactly what they held minus the card returned; a reshuffle draws
    a card of the old discard pile and moves all the others to the draw pile.
  */
  lemma DrawConservesCards<T>(p: Piles<T>, picks: seq<int>)
    requires p.draw == [] ==> ValidPicks(picks, |p.discard|)
    ensures var r := DrawFrom(p, picks);
      r.card.Ok? ==> PileCards(p) == PileCards(r.piles) + multiset{r.card.value}
    ensures var r := DrawFrom(p, picks);
      p.draw == [] && p.discard != [] ==> multiset(r.piles.draw) + multiset{r.card.value} == multiset(p.discard)
  {
    if |p.draw| > 0 {
      DropLastMultiset(p.draw);
    } else if |p.discard| > 0 {
      var s := Shuffled(p.discard, picks, |p.discard|);
      ShuffledIsPermutation(p.discard, picks, |p.discard|);
      DropLastMultiset(s);
    }
  }

  /** The answer piles of a game (`AnswerDeck`, game/cards.go:32-35). */
  class AnswerDeck {
    var deck: seq<AnswerCard>
    var discardPile: seq<AnswerCard>

    /** `new(AnswerDeck)`: both piles empty. */
    constructor ()
      ensures deck == [] && discardPile == []
    {
      deck, discardPile := [], [];
    }

    /** The current state as a value. */
    function State(): Piles<AnswerCard>
      reads this
    {
      Piles(deck, discardPile)
    }

    /**
      Loads every deck's answer cards into the draw pile, empties the discard
      pile and shuffles the draw pile (game/cards.go:52-59). The draw pile ends
      as a permutation of all the answer cards.
    */
    method Init(decks: seq<Deck>, picks: seq<int>)
      requires ValidPicks(picks, |AnswersOf(decks, |decks|)|)
      modifies this
      ensures deck == Shuffled(AnswersOf(decks, |decks|), picks, |AnswersOf(decks, |decks|)|)
      ensures discardPile == []
    {
      // game/cards.go:53-54 assign `new([]AnswerCard)`, a pointer, to slice fields; empty slices are meant.
      deck, discardPile := [], [];
      var i := 0;
      while i < |decks|
        invariant 0 <= i <= |decks|
        invariant deck == AnswersOf(decks, i) && discardPile == []
      {
        // game/cards.go:56 appends the slice itself to `p.Deck`; the receiver is `d`
        // and the cards are meant to be spread (`deck.AnswerCards...`).
        deck := deck + decks[i].answerCards;
        i := i + 1;
      }
      deck := ShuffleSlice(deck, picks);
    }

    /**
      Pops the top answer card, reshuffling the discard pile into the draw pile
      first when the draw pile is empty (game/cards.go:75-89). `picks` is only
      consulted by that reshuffle.
    */
    method Draw(picks: seq<int>) returns (card: Result<AnswerCard>)
      requires deck == [] ==> ValidPicks(picks, |discardPile|)
      modifies this
      ensures Drawn(card, State()) == DrawFrom(old(State()), picks)
    {
      // game/cards.go:76-84 name the fields `AnswerDeck`/`AnswerDiscard`; `Deck`/`DiscardPile` are meant.
      if |deck| > 0 {
        // game/cards.go:77 indexes `len(...)`, one past the end; the last card is meant.
        card := Ok(deck[|deck| - 1]);
        deck := deck[..|deck| - 1];
      } else if |discardPile| > 0 {
        deck, discardPile := discardPile, [];
        deck := ShuffleSlice(deck, picks);
        // game/cards.go:83: as at line 77, the last card is meant.
        card := Ok(deck[|deck| - 1]);
        deck := deck[..|deck| - 1];
      } else {
        // game/cards.go:88 returns `nil` for a struct result; the zero card with the error is meant.
        card := Err(ExhaustedError);
      }
    }

    /** Puts `card` on the discard pile (game/cards.go:93-95). */
    method Discard(card: AnswerCard)
      modifies this
      ensures discardPile == old(discardPile) + [card] && deck == old(deck)
    {
      // game/cards.go:94 names the field `AnswerDiscard`; `DiscardPile` is meant. The declared
      // `error` result is never set and the body has no `return`: discarding cannot fail.
      discardPile := discardPile + [card];
    }
  }

  /** The answer deck and the question piles of a game (`PlayDeck`, game/cards.go:26-30). */
  class PlayDeck {
    var answerDeck: AnswerDeck?
    var questionDeck: seq<QuestionCard>
    var questionDiscard: seq<QuestionCard>

    /** The zero `PlayDeck`: no answer deck yet, question piles empty. */
    constructor ()
      ensures answerDeck == null && questionDeck == [] && questionDiscard == []
    {
      answerDeck, questionDeck, questionDiscard := null, [], [];
    }

    /** The question piles as a value. */
    function QuestionPiles(): Piles<QuestionCard>
      reads this
    {
      Piles(questionDeck, questionDiscard)
    }

    /**
      Replaces the answer deck by a fresh one loaded from `decks`, loads every
      question card into the question pile, empties the question discard pile
      and shuffles (game/cards.go:38-50). Both draw piles end as permutations
      of the cards of their kind.
    */
    method Init(decks: seq<Deck>, answerPicks: seq<int>, questionPicks: seq<int>)
      requires ValidPicks(answerPicks, |AnswersOf(decks, |decks|)|)
      requires ValidPicks(questionPicks, |QuestionsOf(decks, |decks|)|)
      modifies this
      ensures answerDeck != null && fresh(answerDeck)
      ensures answerDeck.deck == Shuffled(AnswersOf(decks, |decks|), answerPicks, |AnswersOf(decks, |decks|)|)
      ensures answerDeck.discardPile == []
      ensures questionDeck == Shuffled(QuestionsOf(decks, |decks|), questionPicks, |QuestionsOf(decks, |decks|)|)
      ensures questionDiscard == []
    {
      // game/cards.go:40-41 assign `new([]QuestionCard)`, a pointer, to slice fields; empty slices are meant.
      var questions: seq<QuestionCard> := [];
      var i := 0;
      while i < |decks|
        invariant 0 <= i <= |decks|
        invariant questions == QuestionsOf(decks, i)
      {
        // game/cards.go:46 appends the slice itself; its cards are meant (`deck.QuestionCards...`).
        questions := questions + decks[i].questionCards;
        i := i + 1;
      }
      questions := ShuffleSlice(questions, questionPicks);
      // game/cards.go:38-50 declare an `error` result, set none and end without a `return`:
      // loading cannot fail, and game/game.go:76 checks an error that never comes.
      var answers := new AnswerDeck();
      answers.Init(decks, answerPicks);
      answerDeck, questionDeck, questionDiscard := answers, questions, [];
    }

    /** Pops the top question card, as AnswerDeck.Draw does for answers (game/cards.go:103-117). */
    method DrawQuestion(picks: seq<int>) returns (card: Result<QuestionCard>)
      requires questionDeck == [] ==> ValidPicks(picks, |questionDiscard|)
      modifies this
      ensures Drawn(card, QuestionPiles()) == DrawFrom(old(QuestionPiles()), picks)
      ensures answerDeck == old(answerDeck)
    {
      if |questionDeck| > 0 {
        // game/cards.go:105 indexes `len(...)`; the last card is meant.
        card := Ok(questionDeck[|questionDeck| - 1]);
        questionDeck := questionDeck[..|questionDeck| - 1];
      } else if |questionDiscard| > 0 {
        questionDeck, questionDiscard := questionDiscard, [];
        questionDeck := ShuffleSlice(questionDeck, picks);
        // game/cards.go:111: as at line 105, the last card is meant.
        card := Ok(questionDeck[|questionDeck| - 1]);
        questionDeck := questionDeck[..|questionDeck| - 1];
      } else {
        // game/cards.go:116 returns `nil` for a struct result, as line 88 does.
        card := Err(ExhaustedError);
      }
    }

    /** Puts `card` on the question discard pile (game/cards.go:121-123). */
    method DiscardQuestion(card: QuestionCard)
      modifies this
      ensures questionDiscard == old(questionDiscard) + [card]
      ensures questionDeck == old(questionDeck) && answerDeck == old(answerDeck)
    {
      // game/cards.go:121-123 declare an `error` result that no path sets: discarding cannot fail.
      questionDiscard := questionDiscard + [card];
    }
  }
}
