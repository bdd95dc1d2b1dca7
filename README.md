# Trees Against Humanity server: a verified model of the game core

This project models the sequential core of the Trees Against Humanity game
server in Dafny and proves what that core promises. It covers five parts:

- **Card piles** (`cards.dfy`, module `Cards`):
  - the answer deck and the question piles of a play deck, each a draw pile and a discard pile;
  - drawing, with a reshuffle of the discard pile when the draw pile runs out;
  - discarding;
  - the in-place Fisher-Yates shuffle.
- **Games and players** (`game.dfy`, module `Games`):
  - the five game phases and their JSON names;
  - players and their hands: gaining a card, drawing a card, discarding a card by id;
  - dealing hands up to a target size;
  - starting a game.
- **The user and game registry** (`manager.go`, module `Registry` in `manager.dfy`): users and games kept in maps keyed by ids that two counters hand out.
- **The room registry of the HTTP API** (`rooms.dfy`, module `Rooms`):
  - creating rooms with unique names;
  - listing rooms without their passwords.
- **Access-token checks** (`auth.dfy`, module `Auth`):
  - the scope check on the claims of a token;
  - the choice of the signing certificate from a published key set.

`results.dfy` (module `Results`) holds the `Option`, `Result` and `Outcome` types. The model uses them where Go returns a nil pointer or an `error`.

The form of each part follows the code:

- **Objects become classes.** Objects whose methods update their fields in place are classes: `AnswerDeck`, `PlayDeck`, `Player`, `Game`, `Manager` and `RoomManager`. Go's slices and maps become `seq` and `map` fields that the methods reassign. The shuffle works on an `array`.
- **Dealing has a specification.** Dealing is specified by the pure functions `DealInto` and `DealAllFrom`, which replay the draws one at a time on values. The methods `Game.Deal` and `Game.DealAll` are proved equal to them.
- **Card conservation is proved on that specification.** The lemmas prove that dealing moves cards from the piles into the hands without losing any and without making any. The one place where the code makes a card is `Player.Draw` from empty piles, which adds Go's zero card (`PlayerDrawCards`).
- **Randomness is an oracle.** The random index of the shuffle is a parameter `picks`: `picks[n - 1]` is the value `r.Intn(n)` would return, so `0 <= picks[n - 1] < n`. Every property is proved for every oracle that meets that bound.

Several lines of `game/cards.go` and `game/game.go` do not compile as written. The model follows the evident intent at each of the following lines, and a comment in the Dafny cites the line:

- `game/cards.go:77`, `:83`, `:105` and `:111` index one past the end of the pile.
- `game/cards.go:76-84` and `:94` use the field names `AnswerDeck` and `AnswerDiscard`, which `AnswerDeck` does not have.
- `game/cards.go:40-41` and `:53-54` assign `new(...)` pointers to slice fields.
- `game/cards.go:46` and `:56` append a slice without spreading it, and line 56 uses `p` for the receiver `d`.
- `game/cards.go:88` and `:116` return `nil` for a card, which is a struct.
- `game/cards.go:125` declares `shuffle` over `[]interface{}`, but lines 49, 58, 82 and 110 pass typed slices.
- `game/cards.go:38-50`, `:93-95` and `:121-123`, and `game/game.go:87` and `:115-117`, declare an `error` result but have no `return` statement.
- `game/game.go:32` switches on a byte slice with string cases.
- `game/game.go:34-42` assign to the pointer `p` instead of storing through it.
- `game/game.go:76` and `:82-86` refer to the wrong object.
- `game/game.go:99` leaves out the `upTo` argument.
- `game/game.go:116` and `:121` use `player` for the receiver `p`.
- `game/game.go:128` uses `+` on slices.

Unused or missing imports have no counterpart in the model and carry no comment. Neither does the second copy of `shuffle` at `game/game.go:89-95`, which nothing in the model calls. Two more lines compile but do not do what is evidently meant; they are listed under "Findings".

The model follows the code where the code departs from its own comments or signatures:

- `PlayDeck.Init` declares an `error` result but no path sets one, so `Game.Start` never fails after its point-limit check.
- `AddGame` does not check the game name, although its doc comment says the name must not be in use.
- `MarshalJSON` returns the bare phase name, without JSON quotes.
- `Start` does not check the current phase.

## Model

| member | source | states |
|---|---|---|
| Cards.SwapPermutes | game/cards.go:129 | exchanging two slots keeps the multiset of the pile |
| Cards.Shuffled | game/cards.go:125-131 | the order the shuffle loop leaves a pile in for the given oracle; the length is kept |
| Cards.ShuffledIsPermutation | game/cards.go:125-131 | for every oracle with `0 <= picks[n-1] < n`, the shuffled pile is a permutation of the original |
| Cards.Shuffle | game/cards.go:125-131 | the in-place loop over the array leaves exactly `Shuffled(old contents)`, so by `ShuffledIsPermutation` a permutation |
| Cards.ShuffleSlice | game/cards.go:58 | shuffling a slice yields `Shuffled` of it |
| Cards.DrawFrom | game/cards.go:75-89 | a draw succeeds iff some pile is non-empty. A non-empty draw pile yields its last card, loses exactly that card and leaves the discard pile unchanged. An empty draw pile takes the shuffled discard pile, and the discard pile ends empty. Both piles empty fails with "answers deck and discard empty" and changes nothing |
| Cards.DrawConservesCards | game/cards.go:75-89 | after a successful draw, the cards of both piles plus the returned card are the cards held before. A reshuffle draw returns a card of the old discard pile, and the rest of that pile becomes the draw pile |
| Cards.AnswerDeck.constructor | game/cards.go:32-35 | a new answer deck has both piles empty |
| Cards.AnswerDeck.Init | game/cards.go:52-59 | the draw pile is the shuffled answer cards of all decks, in deck order before shuffling; the discard pile is empty |
| Cards.AnswerDeck.Draw | game/cards.go:75-89 | the returned card and the new piles are exactly `DrawFrom` of the old piles |
| Cards.AnswerDeck.Discard | game/cards.go:93-95 | the card goes to the end of the discard pile; the draw pile is unchanged |
| Cards.PlayDeck.constructor | game/cards.go:26-30 | a new play deck has no answer deck and empty question piles |
| Cards.PlayDeck.Init | game/cards.go:38-50 | a fresh answer deck is initialised as `AnswerDeck.Init` does; the question pile is the shuffled question cards of all decks; both discard piles are empty |
| Cards.PlayDeck.DrawQuestion | game/cards.go:103-117 | the returned card and the new question piles are exactly `DrawFrom` of the old question piles; the answer deck is untouched |
| Cards.PlayDeck.DiscardQuestion | game/cards.go:121-123 | the card goes to the end of the question discard pile; nothing else changes |
| Games.MarshalJSON | game/game.go:25-29 | each of the five phases has a name, and decoding that name gives the phase back |
| Games.UnmarshalJSON | game/game.go:31-47 | decoding succeeds iff the input is one of the five names, and yields the phase of that name; any other input fails with "Invalid GamePhase value" |
| Games.MarshalJSONInjective | game/game.go:26-27 | the five phases have five distinct names |
| Games.UnmarshalMarshalRoundTrip | game/game.go:31-47 | a name that decodes encodes back to itself |
| Games.FirstWithId | game/game.go:125-127 | the index found is the first card with the id; no index means no card has it |
| Games.Player.constructor | game/game.go:54-58 | a player holds the given user, hand and score |
| Games.Player.Gain | game/game.go:115-117 | the card is appended to the hand; score and user are unchanged |
| Games.Player.Draw | game/game.go:119-122 | the piles change as `DrawFrom` says. The hand gains the drawn card, or Go's zero card when both piles are empty, because the error is ignored |
| Games.PlayerDrawCards | game/game.go:119-122 | a draw from non-empty piles moves one card from the piles to the hand. A draw from empty piles adds the zero card, which neither pile held: the one place where a card is made |
| Games.Player.Discard | game/game.go:124-134 | the first card with the id leaves the hand, the other cards keep their order, and that card goes to the end of the discard pile. Without such a card the result is "card with id not in hand" and nothing changes |
| Games.DealInto | game/game.go:105-112 | replays the draw loop on values; the discard pile never grows |
| Games.DealIntoLength | game/game.go:105-112 | the hand gains exactly `min(max(count, 0), cards in the piles)` cards, one per successful draw, so a failed draw is skipped and at most `count` are added. The piles lose as many cards as the hand gains |
| Games.DealIntoKeepsHand | game/game.go:105-112 | dealing only appends: the old hand stays in front, in order |
| Games.DrawIntoConservesCards | game/game.go:106-111 | one draw moves the drawn card, if any, from the piles to the hand |
| Games.DealIntoConservesCards | game/game.go:105-112 | the hand and the piles together hold the same multiset of cards before and after dealing |
| Games.DealAllFrom | game/game.go:97-113 | tops up every seat in order, on values; the seat count is kept and the discard pile never grows |
| Games.DealAllKeepsHands | game/game.go:97-113 | every hand keeps its old cards in front, and ends with at most `upTo` cards unless it already held more |
| Games.DealAllFromStep | game/game.go:97-101 | dealing from seat `i` on is dealing to seat `i`, then dealing from seat `i + 1` on |
| Games.DealOneConservesCards | game/game.go:103-113 | topping up one seat keeps the multiset of all hands plus the piles |
| Games.DealAllConservesCards | game/game.go:97-113 | dealing to every seat keeps the multiset of all hands plus the piles: no card is lost or made |
| Games.DealCountAsWritten | game/game.go:104 | the draw count as written is positive exactly when the hand already holds more than the target |
| Games.DealCountAsWrittenIsReversed | game/game.go:104 | with that count, a short hand gets no card and an overfull hand grows past both its size and the target. The missing-card count does the opposite |
| Games.DealAllIntoCopies | game/game.go:97-113 | dealing as written deals into range copies with line 104's count. Every seat's hand is unchanged, while the piles can only shrink |
| Games.DealAllIntoCopiesLosesCards | game/game.go:97-113 | as written, a hand over the target loses its surplus: that many cards, as far as the piles hold them, leave the piles and reach no hand. Dealing into the seats keeps every card |
| Games.Game.constructor | game/game.go:60-69 | a new game is in the lobby, has no round and holds an empty play deck |
| Games.Game.Deal | game/game.go:103-113 | the player's hand and the answer piles end as `DealInto` says for the missing-card count; score and user are unchanged |
| Games.Game.DealAll | game/game.go:97-101 | all hands and the answer piles end as `DealAllFrom` says, seat by seat in order; scores and users are unchanged |
| Games.Game.Start | game/game.go:71-87 | with max points below 1, the result is "max points not set" and nothing changes. Otherwise the piles are loaded and shuffled and every hand is dealt up to 10 cards. The phase becomes `RoundInProgress`, and the round has the first player as czar and the popped top question card. The question pile loses exactly that card |
| Registry.Manager.constructor | manager.go:11-16 | an empty registry with both counters at 0 |
| Registry.Manager.AddUser | manager.go:32-55 | it rejects a missing connection, a name under 4 characters and a name in use, and each rejection changes nothing. On success the counter goes up by 1, and the user is stored under the new id with that id and nothing else changes. The invariants are kept: distinct names, key = record id, keys ≤ counter |
| Registry.Manager.RemoveUser | manager.go:59-74 | it rejects ids ≤ 0 and unknown ids. On success it deletes exactly that key, and the counter does not go down, so ids are not reused |
| Registry.Manager.AddGame | manager.go:80-94 | it fails with "invalid owner ID" unless the owner is registered. On success the game counter goes up by 1 and the game is stored under it; the name is not checked |
| Registry.Manager.RemoveGame | manager.go:98-107 | it fails with "invalid game ID" for an unknown id; otherwise it removes exactly that entry |
| Rooms.ToRoomInfo | internal/api/rooms.go:93-95 | the public view keeps the id and the name; it has no password field |
| Rooms.InfosBelowCount | internal/api/rooms.go:18-24 | one view is listed per stored key below the bound |
| Rooms.InfosBelowComplete | internal/api/rooms.go:20-21 | the view of every room under a key below the bound is listed |
| Rooms.InfosBelowSound | internal/api/rooms.go:20-21 | every listed view is the view of a stored room |
| Rooms.InfosBelowListsAll | internal/api/rooms.go:18-24 | when all keys are below the bound, the listing has one view per room, and every view is the projection of a stored room |
| Rooms.RoomManager.constructor | internal/api/rooms.go:12-16 | a manager with a nil map and counter 0 |
| Rooms.RoomManager.GetRooms | internal/api/rooms.go:18-24 | exactly one view per stored room: the length equals the map size, every room's view is present, and every view is a room's projection. A nil map lists nothing |
| Rooms.RoomManager.CreateRoom | internal/api/rooms.go:26-49 | it rejects a name under 4 characters with "room name too short" and an exact duplicate with "room name exists", changing nothing. On success the counter goes up by 1, the room is stored under it, the other rooms are unchanged, and the view of the new room is returned. Names stay distinct. A nil map acts as an empty map |
| Auth.Split | auth/auth.go:40 | `strings.Split(s, " ")` never returns an empty list, and no piece holds a space |
| Auth.JoinSplit | auth/auth.go:40 | joining the pieces with single spaces gives the claim back |
| Auth.SplitJoin | auth/auth.go:40 | splitting space-free pieces joined by spaces gives the pieces back |
| Auth.AnyEquals | auth/auth.go:40-44 | the loop finds a match iff the scope is one of the pieces |
| Auth.CheckScope | auth/auth.go:35-47 | unloaded claims grant nothing. Loaded claims grant a scope iff it equals some piece of the scope claim split on single spaces |
| Auth.ScopeWithSpaceNeverGranted | auth/auth.go:40-41 | a requested scope that contains a space is never granted |
| Auth.ListedScopeGranted | auth/auth.go:40-43 | loaded claims whose scope list holds the scope as a whole piece grant it |
| Auth.EmptyPieces | auth/auth.go:40 | the split has an empty piece exactly where the claim has a leading, trailing or doubled space, or is empty |
| Auth.EmptyScopeGranted | auth/auth.go:40-44 | the empty scope is granted iff the claim is empty or has a leading, trailing or doubled space |
| Auth.SplitWithoutSpace | auth/auth.go:40 | a claim without spaces is one piece |
| Auth.WholePieceMatch | auth/auth.go:41 | matching is by whole piece: "read:games" does not grant "read" |
| Auth.PemCert | auth/auth.go:120 | the PEM text is the header, the certificate and the footer |
| Auth.PemRoundTrip | auth/auth.go:120 | the header and footer are in place, and removing them gives the certificate back |
| Auth.FindPemCert | auth/auth.go:118-126 | it fails with "unable to find appropriate key" iff no key's `kid` matches the token's. Otherwise it returns the PEM of the first certificate of the first matching key |

## Left out

- Concurrency and I/O are not modelled:
  - the websocket hub and client pumps (internal/client.go), and unsynchronised map access from several goroutines. Every registry operation is modelled as one sequential step;
  - the server wiring, command-line flags and templates (internal/serve.go, trees-against-humanity.go, cmd/serve.go);
  - the session handlers and authentication middleware (internal/api/api.go, internal/middleware/authmiddleware.go);
  - the HTTP handlers of internal/api/rooms.go:51-85, which only encode JSON and write HTTP errors.
- These library and network calls in auth/auth.go are not modelled:
  - `Claims.Populate` and `Auth0Middleware`. They call the JWT library. The process-fatal `panic` at auth/auth.go:86 is outside the model;
  - the URL parsing, HTTP fetch and JSON decoding in `getPemCert`. `FindPemCert` starts from the decoded key list. The token's `kid` header is an `Option<string>`, with `None` for a missing or non-string header.
- Auth.FindPemCert requires the first matching key to carry a certificate. Go indexes `X5c[0]` and panics on an empty list; the panic is not modelled.
- The `Connection.Close()` call of `RemoveUser` (manager.go:71) is a socket side effect; only the map deletion is modelled. A user's connection is reduced to a flag saying whether there is one.
- The random number generator and its time-based seed (game/cards.go:126) are replaced by the `picks` oracle.
- The message enums (internal/messages, messages) are constant declarations with nothing to prove.
- The model has only the game operations the code has. Submitting cards, choosing a winner, advancing the round and setting max points have no code.
- Games.MarshalJSON requires one of the five named phases. Go's table index panics on any other value, and the panic is not modelled.
- Games.Game.Start requires at least one player and one question card when max points are set. Go indexes `Players[0]` and the last question card, and panics without them; the panic is not modelled.
- Games.Game.Deal and Games.Game.DealAll require the play deck to hold an answer deck. Go dereferences the nil `*AnswerDeck` only when a draw happens and panics there; the panic is not modelled. The only caller, `Start`, loads the play deck first.
- Games.Game: the identity, decks, point limit, name, play deck and seating are fixed when the game is made, because no modelled operation changes them. `Round.czar` holds the seat's player object, where Go copies the `Player` value into the round.
- Player.Draw and Player.Discard take the answer deck itself. In Go they take the `AnswerSource` and `AnswerDiscard` interfaces; the answer deck is the only implementation in the code.
- Registry.Manager.constructor starts with empty maps. The code has no constructor, and a zero `Manager` has nil maps that panic on the first insert. The `game.Game` values the Go map stores are reduced to their id, name and password.
- Rooms.RoomManager.GetRooms lists the rooms in increasing id order, which is one of the orders Go's map iteration may produce. Its contract states only what holds for every order.
- Rooms.RoomManager.CreateRoom and Registry.Manager.AddUser scan ids in increasing order for the same reason. The result does not depend on the order.
- Registry.Manager.AddUser, Registry.Manager.AddGame and Rooms.RoomManager.CreateRoom count ids with unbounded integers. Go's `int` wraps after 2^63 increments, and then a new id could collide with a stored one; that wrap-around is not modelled.
- Names and usernames are `seq<char>`, and their lengths are counted in characters. Go's `len` counts bytes, so the model agrees with the code only for ASCII names.
- JSON struct tags and the wire format of the records are not modelled.

## Findings

| source | as written | input that shows it | evidently intended | confidence | as-written member | corrected member |
|---|---|---|---|---|---|---|
| game/game.go:104 | the number of cards to deal is the hand size minus the target | an empty hand, target 10, one card in the answer pile: no card is dealt. A hand of 12 with target 10 is dealt up to 2 more cards | the number of missing cards, target minus hand size | high; not executed | Games.DealCountAsWrittenIsReversed | Games.Game.Deal |
| game/game.go:98-99 | each hand is dealt into the copy of the player that `range` makes | with line 104 also as written: one player holding 12 cards, target 10, two cards in the answer pile. Both cards leave the pile and reach no hand | deal into each seat's player | high; not executed | Games.DealAllIntoCopiesLosesCards | Games.Game.DealAll |
