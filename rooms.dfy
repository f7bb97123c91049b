/** The room handlers: the listing by number, lookup, the filtered and sorted search, the general
    update, the availability switch, creation under the schema and the unique room number, and
    deletion. */
module Rooms {
  import opened Common
  import opened Strings
  import opened Models
  import opened Query
  import opened Store

  const MsgNotFound: string := "Habitación no encontrada"
  const MsgUpdateNotFound: string := "Room not found"
  const MsgNotBoolean: string := "El campo 'isAvailable' debe ser booleano."
  const MsgDeleted: string := "Habitación eliminada correctamente"

  /** What a room handler sends: `{ message }`, `{ error }` with a fixed text, `{ error }` with the
      message of an exception (whose text is the store's and not modelled), a list of rooms, one
      room, a search result, or a deletion. */
  datatype RoomReply =
    | Message(text: string)
    | ErrorText(text: string)
    | Failure
    | RoomList(rooms: seq<Room>)
    | Single(room: Room)
    | SearchResult(count: nat, results: seq<Room>)
    | Deleted(message: string, room: Room)

  datatype RoomOutcome = RoomOutcome(response: Response<RoomReply>, rooms: seq<Room>, nextId: Id)

  /** The rooms after a handler that creates no room, and so draws no identifier. */
  datatype RoomChange = RoomChange(response: Response<RoomReply>, rooms: seq<Room>)

  /** `Room.findById(id)`. */
  function FindRoom(rooms: seq<Room>, id: Id): (r: Option<nat>)
    ensures r.Some? ==> r.value < |rooms| && rooms[r.value].id == id
    ensures r.None? <==> forall k :: 0 <= k < |rooms| ==> rooms[k].id != id
  {
    IndexOf(rooms, (r: Room) => r.id == id)
  }

  /** Whether a room other than `except` already has the number. */
  function NumberTaken(rooms: seq<Room>, number: int, except: Option<Id>): (b: bool)
    ensures b <==> exists k :: 0 <= k < |rooms| && rooms[k].number == number && Some(rooms[k].id) != except
  {
    IndexOf(rooms, (r: Room) => r.number == number && Some(r.id) != except).Some?
  }

  function NumberKey(r: Room): SortKey { IntKey(r.number) }

  /** Every room satisfies the schema. */
  predicate AllWellFormed(rooms: seq<Room>) {
    forall k :: 0 <= k < |rooms| ==> RoomSchemaValid(rooms[k])
  }

  lemma WellFormedAppend(rooms: seq<Room>, r: Room)
    requires AllWellFormed(rooms) && RoomSchemaValid(r)
    ensures AllWellFormed(rooms + [r])
  {
    var after := rooms + [r];
    forall k | 0 <= k < |after| ensures RoomSchemaValid(after[k]) {
      if k < |rooms| {
        assert after[k] == rooms[k];
      }
    }
  }

  lemma WellFormedReplace(rooms: seq<Room>, i: nat, r: Room)
    requires AllWellFormed(rooms) && i < |rooms| && RoomSchemaValid(r)
    ensures AllWellFormed(rooms[i := r])
  {
  }

  // ---------------------------------------------------------------------------
  // getAllRooms, getRoomById

  /** `GET /rooms`: every room, by ascending number. */
  function GetAllRooms(rooms: seq<Room>): (res: Response<RoomReply>)
    ensures res.status == 200 && res.body.RoomList?
    ensures multiset(res.body.rooms) == multiset(rooms)
    ensures |res.body.rooms| == |rooms|
    ensures SortedBy(res.body.rooms, NumberKey, false)
  {
    SortLength(rooms, NumberKey, false);
    Response(200, RoomList(Sort(rooms, NumberKey, false)))
  }

  /** With unique numbers, the listing is strictly increasing in the room number. */
  lemma AllRoomsStrictlyByNumber(rooms: seq<Room>, nextId: Id)
    requires RoomsValid(rooms, nextId)
    ensures var listed := GetAllRooms(rooms).body.rooms;
      forall i, j :: 0 <= i < j < |listed| ==> listed[i].number < listed[j].number
  {
    var listed := GetAllRooms(rooms).body.rooms;
    forall i, j | 0 <= i < j < |listed| ensures listed[i].number < listed[j].number {
      assert InOrder(NumberKey(listed[i]), NumberKey(listed[j]), false);
      if listed[i].number == listed[j].number {
        assert listed[i] in multiset(rooms) && listed[j] in multiset(rooms);
        var a :| 0 <= a < |rooms| && rooms[a] == listed[i];
        var b :| 0 <= b < |rooms| && rooms[b] == listed[j];
        // Unique numbers make both the same room, which would then sit at two positions of the
        // listing but only once in the store.
        assert a == b;
        SortedTwiceCounts(listed, i, j);
        OnceInDistinct(rooms, a, nextId);
        assert false;
      }
    }
  }

  lemma SortedTwiceCounts(s: seq<Room>, i: nat, j: nat)
    requires i < j < |s| && s[i] == s[j]
    ensures multiset(s)[s[i]] >= 2
  {
    assert s == s[..i] + [s[i]] + s[i + 1..j] + [s[j]] + s[j + 1..];
  }

  /** A room of a collection with unique identifiers occurs in it once. */
  lemma {:induction false} OnceInDistinct(rooms: seq<Room>, a: nat, nextId: Id)
    requires RoomsValid(rooms, nextId) && a < |rooms|
    ensures multiset(rooms)[rooms[a]] == 1
  {
    var x := rooms[a];
    assert rooms == rooms[..a] + [x] + rooms[a + 1..];
    forall k | 0 <= k < |rooms[..a]| ensures rooms[..a][k] != x {
      assert RoomId(rooms[k]) != RoomId(rooms[a]);
    }
    var back := rooms[a + 1..];
    forall k | 0 <= k < |back| ensures back[k] != x {
      assert RoomId(rooms[a + 1 + k]) != RoomId(rooms[a]);
    }
    NotInCountsZero(rooms[..a], x);
    NotInCountsZero(rooms[a + 1..], x);
  }

  lemma NotInCountsZero(s: seq<Room>, x: Room)
    requires forall k :: 0 <= k < |s| ==> s[k] != x
    ensures multiset(s)[x] == 0
  {
    assert x !in s;
  }

  /** `GET /rooms/:id`. */
  function GetRoomById(rooms: seq<Room>, id: Id): (res: Response<RoomReply>)
    ensures res.status == 200 || res.status == 404
    ensures res.status == 200 <==> exists k :: 0 <= k < |rooms| && rooms[k].id == id
    ensures res.status == 200 ==> res.body.Single? && res.body.room in rooms && res.body.room.id == id
    ensures res.status == 404 ==> res.body == Message(MsgNotFound)
  {
    match FindRoom(rooms, id)
    case Some(i) => Response(200, Single(rooms[i]))
    case None => Response(404, Message(MsgNotFound))
  }

  // ---------------------------------------------------------------------------
  // searchRooms

  /** A numeric query parameter: absent or empty, a number, or text that is not a number (which the
      store fails to cast). */
  datatype NumberParam = NoNumber | Numeric(n: int) | NotANumber

  /** The `amenities` parameter: absent, a comma-separated string, or a repeated parameter. */
  datatype AmenitiesParam = NoAmenities | AmenityText(s: string) | AmenityArray(items: seq<string>)

  datatype RoomQuery = RoomQuery(
    roomType: Option<string>,
    isAvailable: Option<string>,
    minCapacity: NumberParam,
    maxCapacity: NumberParam,
    minPrice: NumberParam,
    maxPrice: NumberParam,
    amenities: AmenitiesParam,
    sortBy: Option<string>,
    order: Option<string>)

  function TrimAll(items: seq<string>): (r: seq<string>)
    ensures |r| == |items|
    ensures forall k :: 0 <= k < |r| ==> r[k] == Trim(items[k])
  {
    if items == [] then [] else [Trim(items[0])] + TrimAll(items[1..])
  }

  /** The required amenities: the array as given, or the string split on commas with each piece
      trimmed; none when the parameter is absent or empty. */
  function AmenitiesList(a: AmenitiesParam): (r: seq<string>)
    ensures a.AmenityText? && a.s != "" ==> r == TrimAll(Split(a.s, ',')) && |r| >= 1
    ensures a.AmenityArray? ==> r == a.items
    ensures a.NoAmenities? || a == AmenityText("") ==> r == []
  {
    match a
    case NoAmenities => []
    case AmenityText(s) => if s == "" then [] else TrimAll(Split(s, ','))
    case AmenityArray(items) => items
  }

  /** `{ $gte: min, $lte: max }` on a number; an absent bound does not constrain. */
  predicate WithinBounds(x: int, lo: NumberParam, hi: NumberParam) {
    (lo.Numeric? ==> x >= lo.n) && (hi.Numeric? ==> x <= hi.n)
  }

  predicate MatchesSearch(q: RoomQuery, r: Room) {
    && (q.roomType.Some? && q.roomType.value != "" ==> RoomTypeName(r.roomType) == q.roomType.value)
    && (q.isAvailable.Some? ==> r.isAvailable == (q.isAvailable.value == "true"))
    && WithinBounds(r.capacity, q.minCapacity, q.maxCapacity)
    && WithinBounds(r.pricePerNight, q.minPrice, q.maxPrice)
    && (forall a :: a in AmenitiesList(q.amenities) ==> a in r.amenities)
  }

  function SearchMatcher(q: RoomQuery): Room -> bool {
    (r: Room) => MatchesSearch(q, r)
  }

  const AllowedRoomSort: seq<string> := ["pricePerNight", "capacity", "number", "type"]

  /** The sort field: the requested one when it is whitelisted, otherwise `pricePerNight`. */
  function RoomSortField(sortBy: Option<string>): (f: string)
    ensures f in AllowedRoomSort
    ensures sortBy.Some? && sortBy.value in AllowedRoomSort ==> f == sortBy.value
    ensures (sortBy.None? || sortBy.value !in AllowedRoomSort) ==> f == "pricePerNight"
  {
    if sortBy.Some? && sortBy.value in AllowedRoomSort then sortBy.value else "pricePerNight"
  }

  function RoomKey(field: string): Room -> SortKey {
    (r: Room) =>
      if field == "capacity" then IntKey(r.capacity)
      else if field == "number" then IntKey(r.number)
      else if field == "type" then StrKey(RoomTypeName(r.roomType))
      else IntKey(r.pricePerNight)
  }

  predicate HasNonNumber(q: RoomQuery) {
    q.minCapacity.NotANumber? || q.maxCapacity.NotANumber? || q.minPrice.NotANumber? || q.maxPrice.NotANumber?
  }

  /** `GET /rooms/search`: the rooms that pass every supplied condition, sorted on a whitelisted
      field, ascending unless `order` is `desc`; a bound that is not a number fails in the store. */
  function SearchRooms(rooms: seq<Room>, q: RoomQuery): (res: Response<RoomReply>)
    ensures HasNonNumber(q) ==> res == Response(500, Failure)
    ensures !HasNonNumber(q) ==>
      && res.status == 200 && res.body.SearchResult?
      && res.body.count == |res.body.results|
      && multiset(res.body.results) == multiset(Filter(rooms, SearchMatcher(q)))
      && SortedBy(res.body.results, RoomKey(RoomSortField(q.sortBy)), q.order == Some("desc"))
  {
    if HasNonNumber(q) then Response(500, Failure)
    else
      var results := Sort(Filter(rooms, SearchMatcher(q)), RoomKey(RoomSortField(q.sortBy)), q.order == Some("desc"));
      Response(200, SearchResult(|results|, results))
  }

  /** The search finds exactly the rooms that satisfy its conditions: every result is a room of the
      store that matches, and every matching room is among the results. */
  lemma SearchFindsExactlyMatches(rooms: seq<Room>, q: RoomQuery, r: Room)
    requires !HasNonNumber(q)
    ensures r in SearchRooms(rooms, q).body.results <==> r in rooms && MatchesSearch(q, r)
  {
    var matching := Filter(rooms, SearchMatcher(q));
    var results := SearchRooms(rooms, q).body.results;
    assert r in results <==> r in multiset(results);
    assert r in matching <==> r in multiset(matching);
    FilterMembers(rooms, SearchMatcher(q), r);
  }

  /** A comma-separated amenities parameter asks for each of its pieces, trimmed: the text
      `"wifi, tv"` asks for `"wifi"` and `"tv"`. */
  lemma AmenitiesFromJoinedText(pieces: seq<string>)
    requires |pieces| >= 1 && Join(pieces, ',') != ""
    requires forall k :: 0 <= k < |pieces| ==> ',' !in pieces[k]
    ensures AmenitiesList(AmenityText(Join(pieces, ','))) == TrimAll(pieces)
  {
    SplitJoin(pieces, ',');
  }

  // ---------------------------------------------------------------------------
  // updateRoom

  /** The update validators, which look only at the fields the body sets: a known type,
      `capacity >= 1`, `pricePerNight >= 0`. */
  predicate RoomUpdateValid(u: RoomInput) {
    && (u.roomType.Some? ==> ParseRoomType(u.roomType.value).Some?)
    && (u.capacity.Some? ==> u.capacity.value >= 1)
    && (u.pricePerNight.Some? ==> u.pricePerNight.value >= 0)
  }

  function OrElse<T>(v: Option<T>, current: T): T {
    match v
    case Some(x) => x
    case None => current
  }

  /** The room after an update: each field the body sets (the description trimmed), the rest and
      the identifier as they were. */
  function ApplyRoomUpdate(r: Room, u: RoomInput): (r': Room)
    requires RoomUpdateValid(u)
    ensures r'.id == r.id
    ensures r'.number == OrElse(u.number, r.number)
    ensures u.roomType.Some? ==> RoomTypeName(r'.roomType) == u.roomType.value
    ensures u.roomType.None? ==> r'.roomType == r.roomType
    ensures r'.capacity == OrElse(u.capacity, r.capacity)
    ensures r'.pricePerNight == OrElse(u.pricePerNight, r.pricePerNight)
    ensures r'.amenities == OrElse(u.amenities, r.amenities)
    ensures r'.isAvailable == OrElse(u.isAvailable, r.isAvailable)
    ensures u.description.None? ==> r'.description == r.description
    ensures u.description.Some? ==> r'.description == Trim(u.description.value)
  {
    Room(r.id, OrElse(u.number, r.number),
         match u.roomType case Some(t) => ParseRoomType(t).value case None => r.roomType,
         OrElse(u.capacity, r.capacity), OrElse(u.pricePerNight, r.pricePerNight),
         match u.description case Some(d) => Trim(d) case None => r.description,
         OrElse(u.amenities, r.amenities), OrElse(u.isAvailable, r.isAvailable))
  }

  /** A valid update of a valid room gives a valid room. */
  lemma ApplyRoomUpdateKeepsSchema(r: Room, u: RoomInput)
    requires RoomSchemaValid(r) && RoomUpdateValid(u)
    ensures RoomSchemaValid(ApplyRoomUpdate(r, u))
  {
    if u.description.Some? {
      TrimIdempotent(u.description.value);
    }
  }

  /** `PUT /rooms/:id`: 500 when an update validator rejects the body, 404 for an unknown room,
      500 when the new number belongs to another room (the unique index), otherwise 200 with
      the updated room in place. */
  function Update(rooms: seq<Room>, id: Id, u: RoomInput): (out: RoomChange)
    ensures out.response.status == 200 || out.response.status == 404 || out.response.status == 500
    ensures out.response.status != 200 ==> out.rooms == rooms
    ensures |out.rooms| == |rooms|
  {
    if !RoomUpdateValid(u) then RoomChange(Response(500, Failure), rooms)
    else
      match FindRoom(rooms, id)
      case None => RoomChange(Response(404, Message(MsgUpdateNotFound)), rooms)
      case Some(i) =>
        var r := ApplyRoomUpdate(rooms[i], u);
        if NumberTaken(rooms, r.number, Some(id)) then RoomChange(Response(500, Failure), rooms)
        else RoomChange(Response(200, Single(r)), rooms[i := r])
  }

  /** The answers of an update: a validation failure is a 500 before any lookup, an unknown room a
      404, a number held by another room a 500, and only a 200 writes, replacing that room in place
      by its updated version. */
  lemma UpdateResponses(rooms: seq<Room>, id: Id, u: RoomInput)
    ensures var out := Update(rooms, id, u);
      && out.response.status in {200, 404, 500}
      && (!RoomUpdateValid(u) ==> out.response == Response(500, Failure))
      && (out.response.status == 404 <==> RoomUpdateValid(u) && forall k :: 0 <= k < |rooms| ==> rooms[k].id != id)
      && (out.response.status == 404 ==> out.response.body == Message(MsgUpdateNotFound))
      && (out.response.status != 200 ==> out.rooms == rooms)
      && (RoomUpdateValid(u) && FindRoom(rooms, id).Some? ==>
            var i := FindRoom(rooms, id).value;
            var r := ApplyRoomUpdate(rooms[i], u);
            && (out.response.status == 500 <==>
                  exists k :: 0 <= k < |rooms| && rooms[k].number == r.number && rooms[k].id != id)
            && (out.response.status == 200 ==>
                  out.rooms == rooms[i := r] && out.response.body == Single(r) && r.id == id))
  {
  }

  /** An update keeps identifiers and room numbers unique and every room valid. */
  lemma UpdateKeepsRoomsValid(rooms: seq<Room>, nextId: Id, id: Id, u: RoomInput)
    requires RoomsValid(rooms, nextId)
    requires AllWellFormed(rooms)
    ensures RoomsValid(Update(rooms, id, u).rooms, nextId)
    ensures AllWellFormed(Update(rooms, id, u).rooms)
  {
    if RoomUpdateValid(u) && FindRoom(rooms, id).Some? {
      var i := FindRoom(rooms, id).value;
      var r := ApplyRoomUpdate(rooms[i], u);
      if !NumberTaken(rooms, r.number, Some(id)) {
        assert Update(rooms, id, u).rooms == rooms[i := r];
        forall k | 0 <= k < |rooms| && k != i ensures rooms[k].number != r.number {
          assert RoomId(rooms[k]) != RoomId(rooms[i]);
        }
        RoomsReplace(rooms, i, r, nextId);
        ApplyRoomUpdateKeepsSchema(rooms[i], u);
        WellFormedReplace(rooms, i, r);
      } else {
        assert Update(rooms, id, u).rooms == rooms;
      }
    } else {
      assert Update(rooms, id, u).rooms == rooms;
    }
  }

  // ---------------------------------------------------------------------------
  // updateRoomAvailability

  /** `PATCH /rooms/:id/availability`: 400 unless the body's `isAvailable` is a boolean, 404 for an
      unknown room, otherwise 200 with only `isAvailable` changed. */
  function SetAvailability(rooms: seq<Room>, id: Id, isAvailable: JsonValue): (out: RoomChange)
    ensures out.response.status == 200 || out.response.status == 400 || out.response.status == 404
    ensures out.response.status != 200 ==> out.rooms == rooms
    ensures |out.rooms| == |rooms|
  {
    if !isAvailable.Bool? then RoomChange(Response(400, Message(MsgNotBoolean)), rooms)
    else
      match FindRoom(rooms, id)
      case None => RoomChange(Response(404, Message(MsgNotFound)), rooms)
      case Some(i) =>
        var r := rooms[i].(isAvailable := isAvailable.b);
        RoomChange(Response(200, Single(r)), rooms[i := r])
  }

  /** The answers of an availability switch: the 400 and 404 leave the rooms alone, and a 200 sets
      that room's flag and changes nothing else. */
  lemma SetAvailabilityResponses(rooms: seq<Room>, id: Id, isAvailable: JsonValue)
    ensures var out := SetAvailability(rooms, id, isAvailable);
      && out.response.status in {200, 400, 404}
      && (out.response == Response(400, Message(MsgNotBoolean)) <==> !isAvailable.Bool?)
      && (out.response == Response(404, Message(MsgNotFound)) <==>
            isAvailable.Bool? && forall k :: 0 <= k < |rooms| ==> rooms[k].id != id)
      && (out.response.status != 200 ==> out.rooms == rooms)
      && (out.response.status == 200 ==>
            exists i :: 0 <= i < |rooms| && rooms[i].id == id
              && out.rooms == rooms[i := rooms[i].(isAvailable := isAvailable.b)]
              && out.response.body == Single(rooms[i].(isAvailable := isAvailable.b)))
  {
    var out := SetAvailability(rooms, id, isAvailable);
    if out.response.status == 200 {
      var i := FindRoom(rooms, id).value;
      assert rooms[i].id == id;
    }
  }

  /** The switch keeps identifiers and room numbers unique and every room valid. */
  lemma SetAvailabilityKeepsRoomsValid(rooms: seq<Room>, nextId: Id, id: Id, isAvailable: JsonValue)
    requires RoomsValid(rooms, nextId)
    requires AllWellFormed(rooms)
    ensures RoomsValid(SetAvailability(rooms, id, isAvailable).rooms, nextId)
    ensures AllWellFormed(SetAvailability(rooms, id, isAvailable).rooms)
  {
    if isAvailable.Bool? && FindRoom(rooms, id).Some? {
      var i := FindRoom(rooms, id).value;
      var r := rooms[i].(isAvailable := isAvailable.b);
      assert SetAvailability(rooms, id, isAvailable).rooms == rooms[i := r];
      RoomsReplace(rooms, i, r, nextId);
      WellFormedReplace(rooms, i, r);
    } else {
      assert SetAvailability(rooms, id, isAvailable).rooms == rooms;
    }
  }

  // ---------------------------------------------------------------------------
  // createRoom

  /** `POST /rooms`: 400 when the schema rejects the body or the number is taken (the unique
      index), otherwise 201 with the new room appended. */
  function Create(rooms: seq<Room>, nextId: Id, input: RoomInput): RoomOutcome
  {
    match BuildRoom(nextId, input)
    case None => RoomOutcome(Response(400, Failure), rooms, nextId)
    case Some(r) =>
      if NumberTaken(rooms, r.number, None) then RoomOutcome(Response(400, Failure), rooms, nextId)
      else RoomOutcome(Response(201, Single(r)), rooms + [r], nextId + 1)
  }

  /** The answers of a creation: 201 exactly for an acceptable body with a free number, appending
      the new room under the next identifier; nothing is written otherwise. */
  lemma CreateResponses(rooms: seq<Room>, nextId: Id, input: RoomInput)
    ensures var out := Create(rooms, nextId, input);
      && out.response.status in {201, 400}
      && (out.response.status == 201 <==>
            RoomInputAcceptable(input)
            && forall k :: 0 <= k < |rooms| ==> rooms[k].number != input.number.value)
      && (out.response.status == 400 ==> out.response.body == Failure && out.rooms == rooms && out.nextId == nextId)
      && (out.response.status == 201 ==>
            && out.response.body.Single?
            && out.rooms == rooms + [out.response.body.room]
            && out.nextId == nextId + 1
            && out.response.body.room.id == nextId
            && out.response.body.room.number == input.number.value
            && RoomSchemaValid(out.response.body.room))
  {
  }

  /** A creation keeps identifiers and room numbers unique and every room valid. */
  lemma CreateKeepsRoomsValid(rooms: seq<Room>, nextId: Id, input: RoomInput)
    requires RoomsValid(rooms, nextId)
    requires AllWellFormed(rooms)
    ensures var out := Create(rooms, nextId, input);
      RoomsValid(out.rooms, out.nextId) && nextId <= out.nextId
    ensures AllWellFormed(Create(rooms, nextId, input).rooms)
  {
    match BuildRoom(nextId, input)
    case None =>
      assert Create(rooms, nextId, input).rooms == rooms;
    case Some(r) =>
      if !NumberTaken(rooms, r.number, None) {
        assert Create(rooms, nextId, input) == RoomOutcome(Response(201, Single(r)), rooms + [r], nextId + 1);
        RoomsAppend(rooms, r, nextId);
        WellFormedAppend(rooms, r);
      } else {
        assert Create(rooms, nextId, input).rooms == rooms;
      }
  }

  // ---------------------------------------------------------------------------
  // deleteRoom

  /** `DELETE /rooms/:id`: 404 for an unknown room, otherwise 200 with the removed room. */
  function Delete(rooms: seq<Room>, id: Id): (out: RoomChange)
    ensures out.response.status == 200 || out.response.status == 404
    ensures out.response.status == 404 ==> out.rooms == rooms
    ensures out.response.status == 200 ==> |out.rooms| == |rooms| - 1
  {
    match FindRoom(rooms, id)
    case None => RoomChange(Response(404, ErrorText(MsgNotFound)), rooms)
    case Some(i) => RoomChange(Response(200, Deleted(MsgDeleted, rooms[i])), rooms[..i] + rooms[i + 1..])
  }

  function OtherRoom(id: Id): Room -> bool {
    (r: Room) => r.id != id
  }

  /** A deletion answers 404 for an unknown room and otherwise removes exactly the room with that
      identifier, keeping every other room in order. */
  lemma DeleteRemovesExactly(rooms: seq<Room>, nextId: Id, id: Id)
    requires RoomsValid(rooms, nextId)
    ensures var out := Delete(rooms, id);
      && (out.response.status == 404 <==> forall k :: 0 <= k < |rooms| ==> rooms[k].id != id)
      && (out.response.status == 404 ==> out.response.body == ErrorText(MsgNotFound))
      && (out.response.status != 404 ==>
            out.response.status == 200 && out.response.body.Deleted? && out.response.body.room.id == id)
      && out.rooms == Filter(rooms, OtherRoom(id))
      && RoomsValid(out.rooms, nextId)
  {
    match FindRoom(rooms, id)
    case None =>
      FilterAll(rooms, OtherRoom(id));
    case Some(i) =>
      forall k | 0 <= k < |rooms| && k != i ensures OtherRoom(id)(rooms[k]) {
        assert RoomId(rooms[k]) != RoomId(rooms[i]);
      }
      FilterRemovesOne(rooms, i, OtherRoom(id));
      RoomsRemove(rooms, i, nextId);
  }

  // ---------------------------------------------------------------------------
  // The store

  /** `createRoom` against the store. */
  method CreateRoom(db: Db, input: RoomInput) returns (res: Response<RoomReply>)
    requires db.Valid()
    requires AllWellFormed(db.rooms)
    modifies db`rooms, db`nextId
    ensures db.Valid()
    ensures AllWellFormed(db.rooms)
    ensures var out := Create(old(db.rooms), old(db.nextId), input);
      res == out.response && db.rooms == out.rooms && db.nextId == out.nextId
  {
    var rooms, n := db.rooms, db.nextId;
    var out := Create(rooms, n, input);
    CreateKeepsRoomsValid(rooms, n, input);
    ValidAsIdsGrow(rooms, db.guests, db.users, n, out.nextId);
    LedgerIdsGrow(db.reservations, db.payments, n, out.nextId);
    ghost var guests, reservations, payments, users := db.guests, db.reservations, db.payments, db.users;
    db.rooms, db.nextId := out.rooms, out.nextId;
    assert db.guests == guests && db.reservations == reservations && db.payments == payments && db.users == users;
    res := out.response;
  }

  /** `updateRoom` against the store. */
  method UpdateRoom(db: Db, id: Id, u: RoomInput) returns (res: Response<RoomReply>)
    requires db.Valid()
    requires AllWellFormed(db.rooms)
    modifies db`rooms
    ensures db.Valid()
    ensures AllWellFormed(db.rooms)
    ensures var out := Update(old(db.rooms), id, u); res == out.response && db.rooms == out.rooms
  {
    var out := Update(db.rooms, id, u);
    UpdateKeepsRoomsValid(db.rooms, db.nextId, id, u);
    ghost var guests, reservations, payments, users, n := db.guests, db.reservations, db.payments, db.users, db.nextId;
    db.rooms := out.rooms;
    assert db.guests == guests && db.reservations == reservations && db.payments == payments && db.users == users && db.nextId == n;
    res := out.response;
  }

  /** `updateRoomAvailability` against the store. */
  method UpdateRoomAvailability(db: Db, id: Id, isAvailable: JsonValue) returns (res: Response<RoomReply>)
    requires db.Valid()
    requires AllWellFormed(db.rooms)
    modifies db`rooms
    ensures db.Valid()
    ensures AllWellFormed(db.rooms)
    ensures var out := SetAvailability(old(db.rooms), id, isAvailable); res == out.response && db.rooms == out.rooms
  {
    var out := SetAvailability(db.rooms, id, isAvailable);
    SetAvailabilityKeepsRoomsValid(db.rooms, db.nextId, id, isAvailable);
    ghost var guests, reservations, payments, users, n := db.guests, db.reservations, db.payments, db.users, db.nextId;
    db.rooms := out.rooms;
    assert db.guests == guests && db.reservations == reservations && db.payments == payments && db.users == users && db.nextId == n;
    res := out.response;
  }

  /** `deleteRoom` against the store. */
  method DeleteRoom(db: Db, id: Id) returns (res: Response<RoomReply>)
    requires db.Valid()
    modifies db`rooms
    ensures db.Valid()
    ensures var out := Delete(old(db.rooms), id); res == out.response && db.rooms == out.rooms
  {
    var out := Delete(db.rooms, id);
    DeleteRemovesExactly(db.rooms, db.nextId, id);
    ghost var guests, reservations, payments, users, n := db.guests, db.reservations, db.payments, db.users, db.nextId;
    db.rooms := out.rooms;
    assert db.guests == guests && db.reservations == reservations && db.payments == payments && db.users == users && db.nextId == n;
    res := out.response;
  }
}
