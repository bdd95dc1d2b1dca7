/**
  The room registry behind the HTTP API (internal/api/rooms.go): rooms get
  fresh, increasing ids and distinct names of at least four characters, and
  are listed without their passwords.
*/
module Rooms {
  import opened Results

  const NameTooShortError := "room name too short"
  const NameExistsError := "room name exists"

  /** The shortest room name accepted (internal/api/rooms.go:27). */
  const MinNameLength := 4

  /** A room as stored (`room`, internal/api/rooms.go:87-91). */
  datatype Room = Room(id: int, name: string, password: string)

  /** What the API shows of a room (`RoomInfo`, internal/api/rooms.go:97-100): no password. */
  datatype RoomInfo = RoomInfo(id: int, name: string)

  /** The public view of a room (internal/api/rooms.go:93-95). */
  function ToRoomInfo(r: Room): (info: RoomInfo)
    ensures info.id == r.id && info.name == r.name
  {
    RoomInfo(r.id, r.name)
  }

  /** The public views of the rooms stored under the keys in `[1, bound)`, in increasing key order. */
  function InfosBelow(rooms: map<int, Room>, bound: int): seq<RoomInfo>
    decreases if bound < 1 then 0 else bound
  {
    if bound <= 1 then []
    else InfosBelow(rooms, bound - 1) + (if bound - 1 in rooms then [ToRoomInfo(rooms[bound - 1])] else [])
  }

  /** The keys of `rooms` in `[1, bound)`. */
  function KeysBelow(rooms: map<int, Room>, bound: int): set<int>
  {
    set k | k in rooms && 1 <= k < bound
  }

  /** One view is listed per key in `[1, bound)`. */
  lemma {:induction false} InfosBelowCount(rooms: map<int, Room>, bound: int)
    ensures |InfosBelow(rooms, bound)| == |KeysBelow(rooms, bound)|
    decreases if bound < 1 then 0 else bound
  {
    if bound <= 1 {
      assert KeysBelow(rooms, bound) == {};
    } else {
      InfosBelowCount(rooms, bound - 1);
      if bound - 1 in rooms {
        assert KeysBelow(rooms, bound) == KeysBelow(rooms, bound - 1) + {bound - 1};
      } else {
        assert KeysBelow(rooms, bound) == KeysBelow(rooms, bound - 1);
      }
    }
  }

  /** The view of every room stored under a key in `[1, bound)` is listed. */
  lemma {:induction false} InfosBelowComplete(rooms: map<int, Room>, bound: int, k: int)
    requires k in rooms && 1 <= k < bound
    ensures ToRoomInfo(rooms[k]) in InfosBelow(rooms, bound)
    decreases bound
  {
    if k < bound - 1 {
      InfosBelowComplete(rooms, bound - 1, k);
    }
  }

  /** Every listed view is the view of a room stored under a key in `[1, bound)`. */
  lemma {:induction false} InfosBelowSound(rooms: map<int, Room>, bound: int, info: RoomInfo)
    requires info in InfosBelow(rooms, bound)
    ensures exists k :: k in rooms && 1 <= k < bound && info == ToRoomInfo(rooms[k])
    decreases if bound < 1 then 0 else bound
  {
    if info in InfosBelow(rooms, bound - 1) {
      InfosBelowSound(rooms, bound - 1, info);
    } else {
      assert bound - 1 in rooms && info == ToRoomInfo(rooms[bound - 1]);
    }
  }

  /**
    When every key is in `[1, bound)`, the views listed below `bound` are
    exactly one per stored room.
  */
  lemma InfosBelowListsAll(rooms: map<int, Room>, bound: int)
    requires forall k :: k in rooms ==> 1 <= k < bound
    ensures |InfosBelow(rooms, bound)| == |rooms|
    ensures forall k :: k in rooms ==> ToRoomInfo(rooms[k]) in InfosBelow(rooms, bound)
    ensures forall info :: info in InfosBelow(rooms, bound) ==> exists k :: k in rooms && info == ToRoomInfo(rooms[k])
  {
    InfosBelowCount(rooms, bound);
    assert KeysBelow(rooms, bound) == rooms.Keys;
    forall k | k in rooms
      ensures ToRoomInfo(rooms[k]) in InfosBelow(rooms, bound)
    {
      InfosBelowComplete(rooms, bound, k);
    }
    forall info | info in InfosBelow(rooms, bound)
      ensures exists k :: k in rooms && info == ToRoomInfo(rooms[k])
    {
      InfosBelowSound(rooms, bound, info);
    }
  }

  /** The rooms of the API (`RoomManager`, internal/api/rooms.go:12-16). */
  class RoomManager {
    var roomCounter: int
    /** `None` is Go's nil map, made on the first `CreateRoom` that gets past the name check. */
    var rooms: Option<map<int, Room>>

    /** The stored rooms; a nil map holds none. */
    function Rooms(): map<int, Room>
      reads this
    {
      if rooms.Some? then rooms.value else map[]
    }

    /**
      Every room is stored under its own id, an id the counter has already
      handed out, and has a long enough name no other room has.
    */
    ghost predicate Valid()
      reads this
    {
      && 0 <= roomCounter
      && (forall k :: k in Rooms() ==> 1 <= k <= roomCounter && Rooms()[k].id == k && |Rooms()[k].name| >= MinNameLength)
      && (forall k, l :: k in Rooms() && l in Rooms() && k != l ==> Rooms()[k].name != Rooms()[l].name)
    }

    /** A manager with no rooms and a nil map (internal/api/api.go builds it that way). */
    constructor ()
      ensures Valid() && roomCounter == 0 && rooms == None
    {
      roomCounter, rooms := 0, None;
    }

    /**
      Lists every room's public view, one per stored room
      (internal/api/rooms.go:18-24).
    */
    method GetRooms() returns (infos: seq<RoomInfo>)
      requires Valid()
      ensures |infos| == |Rooms()|
      ensures forall k :: k in Rooms() ==> ToRoomInfo(Rooms()[k]) in infos
      ensures forall info :: info in infos ==> exists k :: k in Rooms() && info == ToRoomInfo(Rooms()[k])
    {
      var m := Rooms();
      infos := [];
      // Go visits the map in an unspecified order; visiting the ids the counter
      // has handed out in increasing order is one of those orders, and every key
      // is among them.
      for id := 1 to roomCounter + 1
        invariant infos == InfosBelow(m, id)
      {
        if id in m {
          infos := infos + [ToRoomInfo(m[id])];
        }
      }
      InfosBelowListsAll(m, roomCounter + 1);
    }

    /**
      Adds a room under the next id and returns its public view
      (internal/api/rooms.go:26-49). A name shorter than four characters or
      equal to an existing room's name is rejected and nothing changes.
    */
    method CreateRoom(name: string, password: string) returns (r: Result<RoomInfo>)
      requires Valid()
      modifies this
      ensures Valid()
      ensures |name| < MinNameLength ==>
        r == Err(NameTooShortError) && rooms == old(rooms) && roomCounter == old(roomCounter)
      ensures |name| >= MinNameLength && (exists k :: k in old(Rooms()) && old(Rooms())[k].name == name) ==>
        r == Err(NameExistsError) && Rooms() == old(Rooms()) && roomCounter == old(roomCounter)
      ensures |name| >= MinNameLength && (forall k :: k in old(Rooms()) ==> old(Rooms())[k].name != name) ==>
        r == Ok(RoomInfo(roomCounter, name)) && roomCounter == old(roomCounter) + 1 &&
        roomCounter !in old(Rooms()) && Rooms() == old(Rooms())[roomCounter := Room(roomCounter, name, password)]
    {
      if |name| < MinNameLength {
        return Err(NameTooShortError);
      }
      if rooms.None? {
        rooms := Some(map[]);
      }
      var m := rooms.value;
      // See `GetRooms` for the order of the scan.
      for id := 1 to roomCounter + 1
        invariant forall k :: k in m && k < id ==> m[k].name != name
      {
        if id in m && m[id].name == name {
          return Err(NameExistsError);
        }
      }
      roomCounter := roomCounter + 1;
      var room := Room(roomCounter, name, password);
      rooms := Some(m[roomCounter := room]);
      r := Ok(ToRoomInfo(room));
    }
  }
}
