/** The guest handlers: registration with a unique (normalised) e-mail, the paged and sorted
    listing, lookup, update that keeps e-mails unique across other guests, and deletion. */
module Guests {
  import opened Common
  import opened Strings
  import opened Models
  import opened Query
  import opened Store

  const MsgRequired: string := "Los campos firstName, lastName, email y phone son obligatorios."
  const MsgEmailTaken: string := "El correo electrónico ya está registrado."
  const MsgRegistered: string := "Huésped registrado correctamente"
  const MsgInternal: string := "Error interno del servidor."
  const MsgNotFound: string := "Huésped no encontrado."
  const MsgEmailTakenByOther: string := "El correo electrónico ya está registrado en otro huésped."
  const MsgUpdated: string := "Huésped actualizado correctamente"
  const MsgDeleted: string := "Huésped eliminado correctamente"

  datatype GuestReply =
    | Message(text: string)
    | Saved(message: string, guest: Guest)
    | GuestList(count: nat, total: nat, page: int, totalPages: int, results: seq<Guest>)
    | Found(guest: Guest)

  /** The collection after a handler and the identifier counter. */
  datatype GuestOutcome = GuestOutcome(response: Response<GuestReply>, guests: seq<Guest>, nextId: Id)

  /** The collection after a handler that creates no document, and so draws no identifier. */
  datatype GuestChange = GuestChange(response: Response<GuestReply>, guests: seq<Guest>)

  /** JavaScript truthiness of a string field of the body: present and not empty. */
  predicate Present(v: Option<string>) {
    v.Some? && v.value != ""
  }

  /** `Guest.findOne({ email })`; the schema's setters normalise the e-mail of the query too. */
  function FindByEmail(guests: seq<Guest>, email: string): (r: Option<nat>)
    ensures r.Some? ==> r.value < |guests| && guests[r.value].email == NormalizeEmail(email)
    ensures r.None? <==> forall k :: 0 <= k < |guests| ==> guests[k].email != NormalizeEmail(email)
  {
    IndexOf(guests, (g: Guest) => g.email == NormalizeEmail(email))
  }

  /** `Guest.findById(id)`. */
  function FindGuest(guests: seq<Guest>, id: Id): (r: Option<nat>)
    ensures r.Some? ==> r.value < |guests| && guests[r.value].id == id
    ensures r.None? <==> forall k :: 0 <= k < |guests| ==> guests[k].id != id
  {
    IndexOf(guests, (g: Guest) => g.id == id)
  }

  // ---------------------------------------------------------------------------
  // createGuest

  predicate RequiredFieldsPresent(input: GuestInput) {
    Present(input.firstName) && Present(input.lastName) && Present(input.email) && Present(input.phone)
  }

  /** `POST /guests`: 400 without the four required fields, 409 when the e-mail is registered, 500
      when a schema validator rejects the document, and otherwise 201 with the new guest appended. */
  function Create(guests: seq<Guest>, nextId: Id, input: GuestInput, now: int): (out: GuestOutcome)
  {
    if !RequiredFieldsPresent(input) then GuestOutcome(Response(400, Message(MsgRequired)), guests, nextId)
    else if FindByEmail(guests, input.email.value).Some? then GuestOutcome(Response(409, Message(MsgEmailTaken)), guests, nextId)
    else
      match BuildGuest(nextId, input, now)
      case None => GuestOutcome(Response(500, Message(MsgInternal)), guests, nextId)
      case Some(g) => GuestOutcome(Response(201, Saved(MsgRegistered, g)), guests + [g], nextId + 1)
  }

  /** The answers of a registration, in the order the handler checks, and that only a 201 writes. */
  lemma CreateResponses(guests: seq<Guest>, nextId: Id, input: GuestInput, now: int)
    ensures var out := Create(guests, nextId, input, now);
      && (!RequiredFieldsPresent(input) <==> out.response == Response(400, Message(MsgRequired)))
      && (out.response == Response(409, Message(MsgEmailTaken)) <==>
            RequiredFieldsPresent(input)
            && exists k :: 0 <= k < |guests| && guests[k].email == NormalizeEmail(input.email.value))
      && (out.response.status == 500 <==>
            && RequiredFieldsPresent(input)
            && (forall k :: 0 <= k < |guests| ==> guests[k].email != NormalizeEmail(input.email.value))
            && BuildGuest(nextId, input, now).None?)
      && out.response.status in {201, 400, 409, 500}
      && (out.response.status != 201 ==> out.guests == guests && out.nextId == nextId)
  {
  }

  /** A registration that succeeds appends one guest that satisfies the schema, stores the
      normalised e-mail, takes the next identifier and is the guest the response carries. */
  lemma CreateAppends(guests: seq<Guest>, nextId: Id, input: GuestInput, now: int)
    requires Create(guests, nextId, input, now).response.status == 201
    ensures var out := Create(guests, nextId, input, now);
      && out.response.body.Saved?
      && out.guests == guests + [out.response.body.guest]
      && out.nextId == nextId + 1
      && GuestSchemaValid(out.response.body.guest)
      && out.response.body.guest.id == nextId
      && out.response.body.guest.email == NormalizeEmail(input.email.value)
      && out.response.body.guest.createdAt == now
      && out.response.body.guest.firstName == Trim(input.firstName.value)
      && out.response.body.guest.lastName == Trim(input.lastName.value)
      && out.response.body.guest.phone == Trim(input.phone.value)
      && (input.documentNumber.Some? ==> out.response.body.guest.documentNumber == Trim(input.documentNumber.value))
      && (input.notes.Some? ==> out.response.body.guest.notes == Trim(input.notes.value))
  {
    BuildGuestStoresFields(nextId, input, now);
  }

  /** A registration keeps identifiers and e-mails unique. */
  lemma CreateKeepsGuestsValid(guests: seq<Guest>, nextId: Id, input: GuestInput, now: int)
    requires GuestsValid(guests, nextId)
    ensures var out := Create(guests, nextId, input, now);
      GuestsValid(out.guests, out.nextId) && nextId <= out.nextId
  {
    var out := Create(guests, nextId, input, now);
    if RequiredFieldsPresent(input) && FindByEmail(guests, input.email.value).None? && BuildGuest(nextId, input, now).Some? {
      var g := BuildGuest(nextId, input, now).value;
      assert out.guests == guests + [g] && out.nextId == nextId + 1;
      assert g.id == nextId && g.email == NormalizeEmail(input.email.value);
      GuestsAppend(guests, g, nextId);
    } else {
      assert out.guests == guests && out.nextId == nextId;
    }
  }

  // ---------------------------------------------------------------------------
  // getGuests

  datatype GuestQuery = GuestQuery(
    search: Option<string>,
    documentType: Option<string>,
    page: Option<int>,
    limit: Option<int>,
    sortBy: Option<string>,
    order: Option<string>)

  const AllowedSort: seq<string> := ["createdAt", "firstName", "lastName", "email"]

  /** The sort field: the requested one when it is whitelisted, otherwise `createdAt`. */
  function SortField(sortBy: Option<string>): (f: string)
    ensures f in AllowedSort
    ensures sortBy.Some? && sortBy.value in AllowedSort ==> f == sortBy.value
    ensures (sortBy.None? || sortBy.value !in AllowedSort) ==> f == "createdAt"
  {
    if sortBy.Some? && sortBy.value in AllowedSort then sortBy.value else "createdAt"
  }

  function GuestKey(field: string): Guest -> SortKey {
    (g: Guest) =>
      if field == "firstName" then StrKey(g.firstName)
      else if field == "lastName" then StrKey(g.lastName)
      else if field == "email" then StrKey(g.email)
      else IntKey(g.createdAt)
  }

  /** The listing's filter: the document type when one is given, and, when a search is given, a
      case-insensitive match of the trimmed pattern against a name, the e-mail or the phone.
      `regexTest(pattern, text)` stands for `new RegExp(pattern, "i").test(text)`. */
  predicate MatchesQuery(q: GuestQuery, regexTest: (string, string) -> bool, g: Guest) {
    && (Present(q.documentType) ==> DocumentTypeName(g.documentType) == q.documentType.value)
    && (Present(q.search) ==>
          var pattern := Trim(q.search.value);
          regexTest(pattern, g.firstName) || regexTest(pattern, g.lastName)
          || regexTest(pattern, g.email) || regexTest(pattern, g.phone))
  }

  function QueryMatcher(q: GuestQuery, regexTest: (string, string) -> bool): Guest -> bool {
    (g: Guest) => MatchesQuery(q, regexTest, g)
  }

  /** `GET /guests`: page 1 and 10 per page by default, sorted on a whitelisted field (newest first
      by default), ascending only when `order` is `asc`; the total counts every match. A search
      that is not a valid regular expression once trimmed makes `new RegExp` throw, and the handler
      answers 500; `regexCompiles(pattern)` stands for that constructor succeeding. */
  function GetGuests(guests: seq<Guest>, q: GuestQuery, regexCompiles: string -> bool,
                     regexTest: (string, string) -> bool): (res: Response<GuestReply>)
    ensures res.status == 200 || res.status == 500
    ensures res.status == 500 <==> Present(q.search) && !regexCompiles(Trim(q.search.value))
    ensures res.status == 500 ==> res.body == Message(MsgInternal)
    ensures res.status == 200 ==> res.body.GuestList?
    ensures res.status == 200 ==>
      var matching := Filter(guests, QueryMatcher(q, regexTest));
      var pageNumber, pageSize := ParsePagination(q.page, 1), ParsePagination(q.limit, 10);
      var descending := q.order != Some("asc");
      && res.body.total == |matching|
      && res.body.page == pageNumber
      && res.body.totalPages == TotalPages(|matching|, pageSize)
      && res.body.count == |res.body.results| <= pageSize
      && res.body.results == Page(Sort(matching, GuestKey(SortField(q.sortBy)), descending), Skip(pageNumber, pageSize), pageSize)
      && SortedBy(res.body.results, GuestKey(SortField(q.sortBy)), descending)
    ensures res.status == 200 ==> forall k :: 0 <= k < |res.body.results| ==>
      MatchesQuery(q, regexTest, res.body.results[k]) && res.body.results[k] in guests
  {
    if Present(q.search) && !regexCompiles(Trim(q.search.value)) then Response(500, Message(MsgInternal))
    else
      var matching := Filter(guests, QueryMatcher(q, regexTest));
      var pageNumber, pageSize := ParsePagination(q.page, 1), ParsePagination(q.limit, 10);
      var key := GuestKey(SortField(q.sortBy));
      var descending := q.order != Some("asc");
      var results := Page(Sort(matching, key, descending), Skip(pageNumber, pageSize), pageSize);
      ListingFacts(guests, QueryMatcher(q, regexTest), key, descending, Skip(pageNumber, pageSize), pageSize);
      Response(200, GuestList(|results|, |matching|, pageNumber, TotalPages(|matching|, pageSize), results))
  }

  // ---------------------------------------------------------------------------
  // getGuestById

  /** `GET /guests/:id`. */
  function GetGuestById(guests: seq<Guest>, id: Id): (res: Response<GuestReply>)
    ensures res.status == 200 || res.status == 404
    ensures res.status == 200 <==> exists k :: 0 <= k < |guests| && guests[k].id == id
    ensures res.status == 200 ==> res.body.Found? && res.body.guest in guests && res.body.guest.id == id
    ensures res.status == 404 ==> res.body == Message(MsgNotFound)
  {
    match FindGuest(guests, id)
    case Some(i) => Response(200, Found(guests[i]))
    case None => Response(404, Message(MsgNotFound))
  }

  // ---------------------------------------------------------------------------
  // updateGuest

  /** The update validators, which look only at the fields the body sets: names and phone not
      empty once trimmed, an e-mail that passes the format check once normalised, a known
      document type. */
  predicate UpdateValid(u: GuestInput) {
    && (u.firstName.Some? ==> Trim(u.firstName.value) != "")
    && (u.lastName.Some? ==> Trim(u.lastName.value) != "")
    && (u.phone.Some? ==> Trim(u.phone.value) != "")
    && (u.email.Some? ==> IsValidGuestEmail(NormalizeEmail(u.email.value)))
    && (u.documentType.Some? ==> ParseDocumentType(u.documentType.value).Some?)
  }

  function TrimmedOr(v: Option<string>, current: string): string {
    match v
    case Some(s) => Trim(s)
    case None => current
  }

  /** The guest after the update: each field the body sets, through the schema's setters; every
      other field, the identifier and the creation time as they were. */
  function ApplyUpdate(g: Guest, u: GuestInput): (r: Guest)
    requires UpdateValid(u)
    ensures r.id == g.id && r.createdAt == g.createdAt
    ensures u.email.Some? ==> r.email == NormalizeEmail(u.email.value)
    ensures u.email.None? ==> r.email == g.email
    ensures u.firstName.None? ==> r.firstName == g.firstName
    ensures u.lastName.None? ==> r.lastName == g.lastName
    ensures u.phone.None? ==> r.phone == g.phone
    ensures u.documentType.None? ==> r.documentType == g.documentType
    ensures u.documentType.Some? ==> DocumentTypeName(r.documentType) == u.documentType.value
    ensures u.documentNumber.None? ==> r.documentNumber == g.documentNumber
    ensures u.notes.None? ==> r.notes == g.notes
  {
    Guest(g.id, TrimmedOr(u.firstName, g.firstName), TrimmedOr(u.lastName, g.lastName),
          match u.email case Some(e) => NormalizeEmail(e) case None => g.email,
          TrimmedOr(u.phone, g.phone),
          match u.documentType case Some(t) => ParseDocumentType(t).value case None => g.documentType,
          TrimmedOr(u.documentNumber, g.documentNumber), TrimmedOr(u.notes, g.notes), g.createdAt)
  }

  /** The text fields an update sets are stored trimmed, as the schema's setters do. */
  lemma ApplyUpdateTrims(g: Guest, u: GuestInput)
    requires UpdateValid(u)
    ensures var r := ApplyUpdate(g, u);
      && (u.firstName.Some? ==> r.firstName == Trim(u.firstName.value))
      && (u.lastName.Some? ==> r.lastName == Trim(u.lastName.value))
      && (u.phone.Some? ==> r.phone == Trim(u.phone.value))
      && (u.documentNumber.Some? ==> r.documentNumber == Trim(u.documentNumber.value))
      && (u.notes.Some? ==> r.notes == Trim(u.notes.value))
  {
  }

  /** A valid update of a valid guest gives a guest that satisfies the schema. */
  lemma ApplyUpdateKeepsSchema(g: Guest, u: GuestInput)
    requires GuestSchemaValid(g) && UpdateValid(u)
    ensures GuestSchemaValid(ApplyUpdate(g, u))
  {
    if u.firstName.Some? { TrimIdempotent(u.firstName.value); }
    if u.lastName.Some? { TrimIdempotent(u.lastName.value); }
    if u.phone.Some? { TrimIdempotent(u.phone.value); }
    if u.documentNumber.Some? { TrimIdempotent(u.documentNumber.value); }
    if u.notes.Some? { TrimIdempotent(u.notes.value); }
    if u.email.Some? { NormalizeEmailIdempotent(u.email.value); }
  }

  /** The empty e-mail fails the format check, so an update that sets it never gets past the
      validators, and an e-mail that passes them is one the uniqueness check looked at. */
  lemma EmptyEmailInvalid()
    ensures !IsValidGuestEmail(NormalizeEmail(""))
  {
    assert Trim("") == "";
    assert ToLower("") == "";
  }

  /** Some guest other than `id` has the e-mail (`findOne({ email, _id: { $ne: id } })`). */
  function FindOtherByEmail(guests: seq<Guest>, id: Id, email: string): (r: Option<nat>)
    ensures r.Some? ==> r.value < |guests| && guests[r.value].email == NormalizeEmail(email) && guests[r.value].id != id
    ensures r.None? <==> forall k :: 0 <= k < |guests| ==> guests[k].email != NormalizeEmail(email) || guests[k].id == id
  {
    IndexOf(guests, (g: Guest) => g.email == NormalizeEmail(email) && g.id != id)
  }

  /** `PUT /guests/:id`: 409 when another guest has the new e-mail, 500 when an update validator
      rejects the body, 404 for an unknown guest, otherwise 200 with the updated guest in place. */
  function Update(guests: seq<Guest>, id: Id, u: GuestInput): (out: GuestChange)
    ensures out.response.status == 200 || out.response.status == 404 || out.response.status == 409 || out.response.status == 500
    ensures out.response.status != 200 ==> out.guests == guests
    ensures |out.guests| == |guests|
  {
    if Present(u.email) && FindOtherByEmail(guests, id, u.email.value).Some? then
      GuestChange(Response(409, Message(MsgEmailTakenByOther)), guests)
    else if !UpdateValid(u) then GuestChange(Response(500, Message(MsgInternal)), guests)
    else
      match FindGuest(guests, id)
      case None => GuestChange(Response(404, Message(MsgNotFound)), guests)
      case Some(i) =>
        var g := ApplyUpdate(guests[i], u);
        GuestChange(Response(200, Saved(MsgUpdated, g)), guests[i := g])
  }

  /** The answers of an update: a 409 exactly when a different guest has the e-mail (so keeping
      one's own e-mail is allowed), 404 exactly for an unknown guest with a valid body, and on 200
      the guest replaced in place by the updated one, everything else unchanged. */
  lemma UpdateResponses(guests: seq<Guest>, id: Id, u: GuestInput)
    ensures var out := Update(guests, id, u);
      && (out.response.status == 409 <==>
            Present(u.email)
            && exists k :: 0 <= k < |guests| && guests[k].email == NormalizeEmail(u.email.value) && guests[k].id != id)
      && (out.response.status == 500 <==> out.response.status != 409 && !UpdateValid(u))
      && (out.response.status == 404 <==>
            out.response.status !in {409, 500} && forall k :: 0 <= k < |guests| ==> guests[k].id != id)
      && out.response.status in {200, 404, 409, 500}
      && (out.response.status != 200 ==> out.guests == guests)
      && (out.response.status == 200 ==>
            exists i :: 0 <= i < |guests| && guests[i].id == id
              && out.response.body == Saved(MsgUpdated, ApplyUpdate(guests[i], u))
              && out.guests == guests[i := ApplyUpdate(guests[i], u)])
  {
    var out := Update(guests, id, u);
    if out.response.status == 409 {
      var k := FindOtherByEmail(guests, id, u.email.value).value;
      assert guests[k].email == NormalizeEmail(u.email.value) && guests[k].id != id;
    }
    if out.response.status == 200 {
      var i := FindGuest(guests, id).value;
      assert guests[i].id == id;
    }
  }

  /** When no other guest has the e-mail, only the guest being updated can have it. */
  lemma OthersLackEmail(guests: seq<Guest>, id: Id, i: nat, email: string)
    requires Distinct(guests, GuestId) && i < |guests| && guests[i].id == id
    requires FindOtherByEmail(guests, id, email).None?
    ensures forall k :: 0 <= k < |guests| && k != i ==> guests[k].email != NormalizeEmail(email)
  {
    forall k | 0 <= k < |guests| && k != i ensures guests[k].email != NormalizeEmail(email) {
      assert GuestId(guests[k]) != GuestId(guests[i]);
    }
  }

  /** An update keeps identifiers and e-mails unique. */
  lemma UpdateKeepsGuestsValid(guests: seq<Guest>, nextId: Id, id: Id, u: GuestInput)
    requires GuestsValid(guests, nextId)
    ensures GuestsValid(Update(guests, id, u).guests, nextId)
  {
    if !(Present(u.email) && FindOtherByEmail(guests, id, u.email.value).Some?) && UpdateValid(u)
       && FindGuest(guests, id).Some? {
      var i := FindGuest(guests, id).value;
      var g := ApplyUpdate(guests[i], u);
      assert Update(guests, id, u).guests == guests[i := g];
      if u.email.Some? {
        EmptyEmailInvalid();
        OthersLackEmail(guests, id, i, u.email.value);
      }
      GuestsReplace(guests, i, g, nextId);
    } else {
      assert Update(guests, id, u).guests == guests;
    }
  }

  /** An update keeps every guest valid under the schema. */
  lemma UpdateKeepsSchema(guests: seq<Guest>, id: Id, u: GuestInput)
    requires forall k :: 0 <= k < |guests| ==> GuestSchemaValid(guests[k])
    ensures var after := Update(guests, id, u).guests;
      forall k :: 0 <= k < |after| ==> GuestSchemaValid(after[k])
  {
    if !(Present(u.email) && FindOtherByEmail(guests, id, u.email.value).Some?) && UpdateValid(u)
       && FindGuest(guests, id).Some? {
      var i := FindGuest(guests, id).value;
      var g := ApplyUpdate(guests[i], u);
      assert Update(guests, id, u).guests == guests[i := g];
      ApplyUpdateKeepsSchema(guests[i], u);
      var after := guests[i := g];
      forall k | 0 <= k < |after| ensures GuestSchemaValid(after[k]) {
        if k != i {
          assert after[k] == guests[k];
        }
      }
    } else {
      assert Update(guests, id, u).guests == guests;
    }
  }

  // ---------------------------------------------------------------------------
  // deleteGuest

  /** `DELETE /guests/:id`: 404 for an unknown guest, otherwise 200 and the guest removed. */
  function Delete(guests: seq<Guest>, id: Id): (out: GuestChange)
    ensures out.response.status == 200 || out.response.status == 404
    ensures out.response.status == 404 ==> out.guests == guests
    ensures out.response.status == 200 ==> |out.guests| == |guests| - 1
  {
    match FindGuest(guests, id)
    case None => GuestChange(Response(404, Message(MsgNotFound)), guests)
    case Some(i) => GuestChange(Response(200, Message(MsgDeleted)), guests[..i] + guests[i + 1..])
  }

  /** Every guest but the one with this identifier. */
  function OtherThan(id: Id): Guest -> bool {
    (g: Guest) => g.id != id
  }

  /** The answers of a deletion: 404 exactly for an unknown guest, with nothing removed, and
      otherwise 200 with one guest fewer. */
  lemma DeleteResponses(guests: seq<Guest>, id: Id)
    ensures var out := Delete(guests, id);
      && (out.response.status == 404 <==> forall k :: 0 <= k < |guests| ==> guests[k].id != id)
      && (out.response.status == 404 ==> out.guests == guests && out.response.body == Message(MsgNotFound))
      && (out.response.status != 404 ==> out.response == Response(200, Message(MsgDeleted)) && |out.guests| == |guests| - 1)
  {
  }

  /** A deletion removes exactly the guest with that identifier and keeps every other guest, in
      order. */
  lemma DeleteRemovesExactly(guests: seq<Guest>, id: Id)
    requires Distinct(guests, GuestId)
    ensures Delete(guests, id).guests == Filter(guests, OtherThan(id))
  {
    match FindGuest(guests, id)
    case None =>
      FilterAll(guests, OtherThan(id));
    case Some(i) =>
      forall k | 0 <= k < |guests| && k != i ensures OtherThan(id)(guests[k]) {
        assert GuestId(guests[k]) != GuestId(guests[i]);
      }
      FilterRemovesOne(guests, i, OtherThan(id));
  }

  /** A deletion keeps identifiers and e-mails unique. */
  lemma DeleteKeepsGuestsValid(guests: seq<Guest>, nextId: Id, id: Id)
    requires GuestsValid(guests, nextId)
    ensures GuestsValid(Delete(guests, id).guests, nextId)
  {
    match FindGuest(guests, id)
    case None =>
    case Some(i) =>
      GuestsRemove(guests, i, nextId);
  }

  // ---------------------------------------------------------------------------
  // The store

  /** `createGuest` against the store: the registration's collection and counter, nothing else. */
  method CreateGuest(db: Db, input: GuestInput, now: int) returns (res: Response<GuestReply>)
    requires db.Valid()
    modifies db`guests, db`nextId
    ensures db.Valid()
    ensures var out := Create(old(db.guests), old(db.nextId), input, now);
      res == out.response && db.guests == out.guests && db.nextId == out.nextId
  {
    var out := Create(db.guests, db.nextId, input, now);
    CreateKeepsGuestsValid(db.guests, db.nextId, input, now);
    ValidAsIdsGrow(db.rooms, db.guests, db.users, db.nextId, out.nextId);
    LedgerIdsGrow(db.reservations, db.payments, db.nextId, out.nextId);
    db.guests, db.nextId := out.guests, out.nextId;
    res := out.response;
  }

  /** `updateGuest` against the store. */
  method UpdateGuest(db: Db, id: Id, u: GuestInput) returns (res: Response<GuestReply>)
    requires db.Valid()
    requires forall k :: 0 <= k < |db.guests| ==> GuestSchemaValid(db.guests[k])
    modifies db`guests
    ensures db.Valid()
    ensures forall k :: 0 <= k < |db.guests| ==> GuestSchemaValid(db.guests[k])
    ensures var out := Update(old(db.guests), id, u); res == out.response && db.guests == out.guests
  {
    var out := Update(db.guests, id, u);
    UpdateKeepsGuestsValid(db.guests, db.nextId, id, u);
    UpdateKeepsSchema(db.guests, id, u);
    db.guests := out.guests;
    res := out.response;
  }

  /** `deleteGuest` against the store. */
  method DeleteGuest(db: Db, id: Id) returns (res: Response<GuestReply>)
    requires db.Valid()
    modifies db`guests
    ensures db.Valid()
    ensures var out := Delete(old(db.guests), id); res == out.response && db.guests == out.guests
  {
    var out := Delete(db.guests, id);
    DeleteKeepsGuestsValid(db.guests, db.nextId, id);
    db.guests := out.guests;
    res := out.response;
  }
}
