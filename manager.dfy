/**
  The registry of connected users and open games kept by the server
  (manager.go): users are added under fresh, increasing ids and must have a
  connection and a unique name of at least four characters; games are added
  under their own fresh ids on behalf of a registered user.
*/
module Registry {
  import opened Results

  const NoConnectionError := "user must have a websocket connection"
  const ShortUsernameError := "username must be at least 4 characters"
  const UsernameTakenError := "username already taken"
  const NonPositiveIdError := "must specify an ID above 0"
  const UnknownUserError := "user to remove does not exist"
  const InvalidOwnerError := "invalid owner ID"
  const InvalidGameError := "invalid game ID"

  /** The shortest username accepted (manager.go:37). */
  const MinUsernameLength := 4

  /**
    A connected user (`User`, manager.go:22-26). The connection itself is not
    modelled, only whether there is one.
  */
  datatype User = User(id: int, hasConnection: bool, username: string)

  /** What the registry records about an open game (manager.go:87-91). */
  datatype GameRecord = GameRecord(id: int, name: string, password: string)

  /** Whether some user in `users` goes by `username`. */
  predicate UsernameInUse(users: map<int, User>, username: string)
  {
    exists k :: k in users && users[k].username == username
  }

  /** The active users and games (`Manager`, manager.go:11-16). */
  class Manager {
    var users: map<int, User>
    var games: map<int, GameRecord>
    var userCounter: int
    var gameCounter: int

    /**
      Every user and game is stored under its own id, an id the counter has
      already handed out; every user has a connection and a long enough name,
      and no two users share a name.
    */
    ghost predicate Valid()
      reads this
    {
      && 0 <= userCounter && 0 <= gameCounter
      && (forall k :: k in users ==>
            1 <= k <= userCounter && users[k].id == k && users[k].hasConnection
            && |users[k].username| >= MinUsernameLength)
      && (forall k :: k in games ==> 1 <= k <= gameCounter && games[k].id == k)
      && (forall k, l :: k in users && l in users && k != l ==> users[k].username != users[l].username)
    }

    /** An empty registry whose counters have handed out no id yet. */
    constructor ()
      ensures Valid()
      ensures users == map[] && games == map[] && userCounter == 0 && gameCounter == 0
    {
      users, games := map[], map[];
      userCounter, gameCounter := 0, 0;
    }

    /**
      Registers a user under the next user id (manager.go:32-55). It fails,
      changing nothing, without a connection, with a name shorter than four
      characters, or with a name some user already has.
    */
    method AddUser(username: string, hasConnection: bool) returns (r: Outcome)
      requires Valid()
      modifies this
      ensures Valid()
      ensures games == old(games) && gameCounter == old(gameCounter)
      ensures !hasConnection ==>
        r == Fail(NoConnectionError) && users == old(users) && userCounter == old(userCounter)
      ensures hasConnection && |username| < MinUsernameLength ==>
        r == Fail(ShortUsernameError) && users == old(users) && userCounter == old(userCounter)
      ensures hasConnection && |username| >= MinUsernameLength && UsernameInUse(old(users), username) ==>
        r == Fail(UsernameTakenError) && users == old(users) && userCounter == old(userCounter)
      ensures hasConnection && |username| >= MinUsernameLength && !UsernameInUse(old(users), username) ==>
        r == Pass && userCounter == old(userCounter) + 1 && userCounter !in old(users) &&
        users == old(users)[userCounter := User(userCounter, true, username)]
    {
      if !hasConnection {
        return Fail(NoConnectionError);
      }
      if |username| < MinUsernameLength {
        return Fail(ShortUsernameError);
      }
      // Go visits the map in an unspecified order; visiting the ids the counter
      // has handed out in increasing order is one of those orders, and every key
      // is among them.
      for id := 1 to userCounter + 1
        invariant forall k :: k in users && k < id ==> users[k].username != username
      {
        if id in users && users[id].username == username {
          return Fail(UsernameTakenError);
        }
      }
      userCounter := userCounter + 1;
      users := users[userCounter := User(userCounter, true, username)];
      r := Pass;
    }

    /**
      Unregisters the user with the given id (manager.go:59-74). It fails,
      changing nothing, for an id below 1 or one no user has.
    */
    method RemoveUser(id: int) returns (r: Outcome)
      requires Valid()
      modifies this
      ensures Valid()
      ensures games == old(games) && userCounter == old(userCounter) && gameCounter == old(gameCounter)
      ensures id <= 0 ==> r == Fail(NonPositiveIdError) && users == old(users)
      ensures id > 0 && id !in old(users) ==> r == Fail(UnknownUserError) && users == old(users)
      ensures id > 0 && id in old(users) ==> r == Pass && users == old(users) - {id}
    {
      if id <= 0 {
        return Fail(NonPositiveIdError);
      }
      if id !in users {
        return Fail(UnknownUserError);
      }
      users := users - {id};
      r := Pass;
    }

    /**
      Opens a game owned by the user `userID` under the next game id
      (manager.go:80-94). It fails, changing nothing, when no user has that id;
      the name is not checked.
    */
    method AddGame(userID: int, name: string, password: string) returns (r: Outcome)
      requires Valid()
      modifies this
      ensures Valid()
      ensures users == old(users) && userCounter == old(userCounter)
      ensures userID !in old(users) ==>
        r == Fail(InvalidOwnerError) && games == old(games) && gameCounter == old(gameCounter)
      ensures userID in old(users) ==>
        r == Pass && gameCounter == old(gameCounter) + 1 && gameCounter !in old(games) &&
        games == old(games)[gameCounter := GameRecord(gameCounter, name, password)]
    {
      if userID !in users {
        return Fail(InvalidOwnerError);
      }
      gameCounter := gameCounter + 1;
      // manager.go:87-91 build a `game.Game` with fields `ID` and `Password` it does not have;
      // the record of id, name and password is meant.
      games := games[gameCounter := GameRecord(gameCounter, name, password)];
      r := Pass;
    }

    /**
      Closes the game with the given id (manager.go:98-107); it fails, changing
      nothing, when no game has that id.
    */
    method RemoveGame(id: int) returns (r: Outcome)
      requires Valid()
      modifies this
      ensures Valid()
      ensures users == old(users) && userCounter == old(userCounter) && gameCounter == old(gameCounter)
      ensures id !in old(games) ==> r == Fail(InvalidGameError) && games == old(games)
      ensures id in old(games) ==> r == Pass && games == old(games) - {id}
    {
      if id !in games {
        return Fail(InvalidGameError);
      }
      games := games - {id};
      r := Pass;
    }
  }
}
