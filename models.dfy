/** The four document schemas of the hotel (rooms, guests, reservations, payments) and the user
    record: their enumerations, defaults, minimums and required fields, and the guest e-mail
    format. Each schema is a predicate over the stored record; the handlers decide where the
    store applies it. */
module Models {
  import opened Common
  import opened Strings

  // ---------------------------------------------------------------------------
  // Enumerations

  datatype RoomType = Individual | Doble | Suite

  function RoomTypeName(t: RoomType): string {
    match t
    case Individual => "individual"
    case Doble => "doble"
    case Suite => "suite"
  }

  /** The schema's `enum` check for a room type: accepts exactly the three names. */
  function ParseRoomType(s: string): (r: Option<RoomType>)
    ensures r.Some? ==> RoomTypeName(r.value) == s
    ensures r.None? ==> forall t :: RoomTypeName(t) != s
  {
    if s == "individual" then Some(Individual)
    else if s == "doble" then Some(Doble)
    else if s == "suite" then Some(Suite)
    else None
  }

  datatype DocumentType = Ine | Pasaporte | Licencia | Otro

  function DocumentTypeName(t: DocumentType): string {
    match t
    case Ine => "ine"
    case Pasaporte => "pasaporte"
    case Licencia => "licencia"
    case Otro => "otro"
  }

  /** The schema's `enum` check for a guest's identity document: accepts exactly the four names. */
  function ParseDocumentType(s: string): (r: Option<DocumentType>)
    ensures r.Some? ==> DocumentTypeName(r.value) == s
    ensures r.None? ==> forall t :: DocumentTypeName(t) != s
  {
    if s == "ine" then Some(Ine)
    else if s == "pasaporte" then Some(Pasaporte)
    else if s == "licencia" then Some(Licencia)
    else if s == "otro" then Some(Otro)
    else None
  }

  datatype PaymentMethod = Efectivo | Tdd | Tdc

  function PaymentMethodName(m: PaymentMethod): string {
    match m
    case Efectivo => "efectivo"
    case Tdd => "tdd"
    case Tdc => "tdc"
  }

  /** Membership in the allowed payment methods (cash, debit card, credit card). */
  function ParsePaymentMethod(s: string): (r: Option<PaymentMethod>)
    ensures r.Some? ==> PaymentMethodName(r.value) == s
    ensures r.None? ==> forall m :: PaymentMethodName(m) != s
  {
    if s == "efectivo" then Some(Efectivo)
    else if s == "tdd" then Some(Tdd)
    else if s == "tdc" then Some(Tdc)
    else None
  }

  datatype ReservationStatus = Pending | Confirmed | CheckedIn | CheckedOut | Cancelled | Completed

  function StatusName(s: ReservationStatus): string {
    match s
    case Pending => "pending"
    case Confirmed => "confirmed"
    case CheckedIn => "checked-in"
    case CheckedOut => "checked-out"
    case Cancelled => "cancelled"
    case Completed => "completed"
  }

  /** The schema's `enum` check for a reservation status: accepts exactly the six names. */
  function ParseStatus(s: string): (r: Option<ReservationStatus>)
    ensures r.Some? ==> StatusName(r.value) == s
    ensures r.None? ==> forall t :: StatusName(t) != s
  {
    if s == "pending" then Some(Pending)
    else if s == "confirmed" then Some(Confirmed)
    else if s == "checked-in" then Some(CheckedIn)
    else if s == "checked-out" then Some(CheckedOut)
    else if s == "cancelled" then Some(Cancelled)
    else if s == "completed" then Some(Completed)
    else None
  }

  // ---------------------------------------------------------------------------
  // Rooms

  datatype Room = Room(
    id: Id,
    number: int,
    roomType: RoomType,
    capacity: int,
    pricePerNight: int,
    description: string,
    amenities: seq<string>,
    isAvailable: bool)

  /** The minimums of the room schema (`capacity >= 1`, `pricePerNight >= 0`), and the trimmed description. */
  predicate RoomSchemaValid(r: Room) {
    r.capacity >= 1 && r.pricePerNight >= 0 && r.description == Trim(r.description)
  }

  /** The body of a room creation request; absent fields are None. */
  datatype RoomInput = RoomInput(
    number: Option<int>,
    roomType: Option<string>,
    capacity: Option<int>,
    pricePerNight: Option<int>,
    description: Option<string>,
    amenities: Option<seq<string>>,
    isAvailable: Option<bool>)

  /** What the room schema demands of a creation request: the four required fields, a type from
      the enumeration, `capacity >= 1` and `pricePerNight >= 0`. */
  predicate RoomInputAcceptable(input: RoomInput) {
    && input.number.Some?
    && input.roomType.Some? && ParseRoomType(input.roomType.value).Some?
    && input.capacity.Some? && input.capacity.value >= 1
    && input.pricePerNight.Some? && input.pricePerNight.value >= 0
  }

  /** `new Room(body)` followed by validation: None when the schema rejects the body; otherwise the
      given fields, with the defaults (no description, no amenities, available) for absent ones. */
  function BuildRoom(id: Id, input: RoomInput): (r: Option<Room>)
    ensures r.Some? <==> RoomInputAcceptable(input)
    ensures r.Some? ==> RoomSchemaValid(r.value) && r.value.id == id
    ensures r.Some? ==> (r.value.number == input.number.value
      && RoomTypeName(r.value.roomType) == input.roomType.value
      && r.value.capacity == input.capacity.value && r.value.pricePerNight == input.pricePerNight.value)
    ensures r.Some? ==> r.value.description == Trim(OrEmpty(input.description))
    ensures r.Some? && input.description.None? ==> r.value.description == ""
    ensures r.Some? && input.amenities.Some? ==> r.value.amenities == input.amenities.value
    ensures r.Some? && input.amenities.None? ==> r.value.amenities == []
    ensures r.Some? && input.isAvailable.Some? ==> r.value.isAvailable == input.isAvailable.value
    ensures r.Some? && input.isAvailable.None? ==> r.value.isAvailable
  {
    if !RoomInputAcceptable(input) then None
    else
      var description := Trim(OrEmpty(input.description));
      var amenities := if input.amenities.Some? then input.amenities.value else [];
      var available := if input.isAvailable.Some? then input.isAvailable.value else true;
      TrimIdempotent(OrEmpty(input.description));
      Some(Room(id, input.number.value, ParseRoomType(input.roomType.value).value,
                input.capacity.value, input.pricePerNight.value, description, amenities, available))
  }

  // ---------------------------------------------------------------------------
  // Guests

  datatype Guest = Guest(
    id: Id,
    firstName: string,
    lastName: string,
    email: string,
    phone: string,
    documentType: DocumentType,
    documentNumber: string,
    notes: string,
    createdAt: int)

  /** The e-mail as the schema stores it: trimmed, then lower-cased. */
  function NormalizeEmail(s: string): string {
    ToLower(Trim(s))
  }

  /** The guest schema: required names and phone (non-empty once trimmed), a stored e-mail that is
      already normalised and passes the format check, and trimmed free-text fields. */
  predicate GuestSchemaValid(g: Guest) {
    && g.firstName != "" && g.firstName == Trim(g.firstName)
    && g.lastName != "" && g.lastName == Trim(g.lastName)
    && g.phone != "" && g.phone == Trim(g.phone)
    && g.email == NormalizeEmail(g.email) && IsValidGuestEmail(g.email)
    && g.documentNumber == Trim(g.documentNumber)
    && g.notes == Trim(g.notes)
  }

  /** The body of a guest creation request; absent fields are None. */
  datatype GuestInput = GuestInput(
    firstName: Option<string>,
    lastName: Option<string>,
    email: Option<string>,
    phone: Option<string>,
    documentType: Option<string>,
    documentNumber: Option<string>,
    notes: Option<string>)

  /** `Guest.create(body)`: the schema's setters (trim, lower-case) and defaults, then its validators.
      None when a validator rejects the document. */
  function BuildGuest(id: Id, input: GuestInput, createdAt: int): (r: Option<Guest>)
    ensures r.Some? ==> GuestSchemaValid(r.value) && r.value.id == id && r.value.createdAt == createdAt
    ensures r.Some? && input.email.Some? ==> r.value.email == NormalizeEmail(input.email.value)
    ensures r.Some? && input.documentType.None? ==> r.value.documentType == Otro
    ensures r.Some? && input.documentType.Some? ==> DocumentTypeName(r.value.documentType) == input.documentType.value
    ensures r.Some? <==>
      && input.firstName.Some? && Trim(input.firstName.value) != ""
      && input.lastName.Some? && Trim(input.lastName.value) != ""
      && input.phone.Some? && Trim(input.phone.value) != ""
      && input.email.Some? && IsValidGuestEmail(NormalizeEmail(input.email.value))
      && (input.documentType.None? || ParseDocumentType(input.documentType.value).Some?)
  {
    var docType := match input.documentType case None => Some(Otro) case Some(s) => ParseDocumentType(s);
    if input.firstName.None? || input.lastName.None? || input.phone.None? || input.email.None? || docType.None? then None
    else
      var first, last, phone := Trim(input.firstName.value), Trim(input.lastName.value), Trim(input.phone.value);
      var email := NormalizeEmail(input.email.value);
      if first == "" || last == "" || phone == "" || !IsValidGuestEmail(email) then None
      else
        var docNumber, notes := TrimmedText(input.documentNumber), TrimmedText(input.notes);
        TrimIdempotent(input.firstName.value);
        TrimIdempotent(input.lastName.value);
        TrimIdempotent(input.phone.value);
        NormalizeEmailIdempotent(input.email.value);
        Some(Guest(id, first, last, email, phone, docType.value, docNumber, notes, createdAt))
  }

  /** A created guest holds the given names, phone, document number and notes, trimmed, and empty
      strings for the absent ones. */
  lemma BuildGuestStoresFields(id: Id, input: GuestInput, createdAt: int)
    requires BuildGuest(id, input, createdAt).Some?
    ensures var g := BuildGuest(id, input, createdAt).value;
      && g.firstName == Trim(input.firstName.value) && g.lastName == Trim(input.lastName.value)
      && g.phone == Trim(input.phone.value)
      && (input.documentNumber.Some? ==> g.documentNumber == Trim(input.documentNumber.value))
      && (input.documentNumber.None? ==> g.documentNumber == "")
      && (input.notes.Some? ==> g.notes == Trim(input.notes.value))
      && (input.notes.None? ==> g.notes == "")
  {
    var g := BuildGuest(id, input, createdAt).value;
    assert g == Guest(id, Trim(input.firstName.value), Trim(input.lastName.value), NormalizeEmail(input.email.value),
      Trim(input.phone.value), g.documentType, TrimmedText(input.documentNumber), TrimmedText(input.notes), createdAt);
  }

  /** Normalising an already normalised e-mail changes nothing. */
  lemma NormalizeEmailIdempotent(s: string)
    ensures NormalizeEmail(NormalizeEmail(s)) == NormalizeEmail(s)
  {
    var t := Trim(s);
    TrimLowerCommute(t);
    TrimIdempotent(s);
    ToLowerIdempotent(t);
  }

  /** Trimming and lower-casing commute, so the order of the two setters does not matter. */
  lemma TrimLowerCommute(s: string)
    ensures Trim(ToLower(s)) == ToLower(Trim(s))
  {
    TrimStartLower(s);
    TrimEndLower(TrimStart(s));
  }

  lemma {:induction false} TrimStartLower(s: string)
    ensures TrimStart(ToLower(s)) == ToLower(TrimStart(s))
  {
    if s != [] {
      ToLowerKeepsWhitespace(s);
      assert ToLower(s)[1..] == ToLower(s[1..]);
      TrimStartLower(s[1..]);
    }
  }

  lemma {:induction false} TrimEndLower(s: string)
    ensures TrimEnd(ToLower(s)) == ToLower(TrimEnd(s))
  {
    if s != [] {
      ToLowerKeepsWhitespace(s);
      assert ToLower(s)[..|s| - 1] == ToLower(s[..|s| - 1]);
      TrimEndLower(s[..|s| - 1]);
    }
  }

  /** Two e-mails that differ only in surrounding whitespace and letter case normalise alike. */
  lemma NormalizeEmailForgetsVariant(s: string, pre: string, post: string)
    requires AllWhitespace(pre) && AllWhitespace(post)
    ensures NormalizeEmail(pre + ToUpper(s) + post) == NormalizeEmail(s)
  {
    TrimIgnoresPadding(pre, ToUpper(s), post);
    TrimLowerCommute(ToUpper(s));
    ToUpperKeepsWhitespace(s);
    TrimUpperCommute(s);
    ToLowerForgetsCase(Trim(s));
  }

  lemma {:induction false} ToUpperKeepsWhitespace(s: string)
    ensures forall i :: 0 <= i < |s| ==> (IsWhitespace(ToUpper(s)[i]) <==> IsWhitespace(s[i]))
  {
  }

  lemma TrimUpperCommute(s: string)
    ensures Trim(ToUpper(s)) == ToUpper(Trim(s))
  {
    TrimStartUpper(s);
    TrimEndUpper(TrimStart(s));
  }

  lemma {:induction false} TrimStartUpper(s: string)
    ensures TrimStart(ToUpper(s)) == ToUpper(TrimStart(s))
  {
    if s != [] {
      ToUpperKeepsWhitespace(s);
      assert ToUpper(s)[1..] == ToUpper(s[1..]);
      TrimStartUpper(s[1..]);
    }
  }

  lemma {:induction false} TrimEndUpper(s: string)
    ensures TrimEnd(ToUpper(s)) == ToUpper(TrimEnd(s))
  {
    if s != [] {
      ToUpperKeepsWhitespace(s);
      assert ToUpper(s)[..|s| - 1] == ToUpper(s[..|s| - 1]);
      TrimEndUpper(s[..|s| - 1]);
    }
  }

  // ---------------------------------------------------------------------------
  // The guest e-mail format

  predicate IsAsciiLetter(c: char) {
    'a' <= c <= 'z' || 'A' <= c <= 'Z'
  }

  /** A character of the local part: letters, digits and `_ ' ^ & / + -`. */
  predicate IsLocalChar(c: char) {
    IsAsciiLetter(c) || IsDigit(c) || c == '_' || c == '\'' || c == '^' || c == '&' || c == '/' || c == '+' || c == '-'
  }

  /** A character of a domain label: letters, digits and `-`. */
  predicate IsLabelChar(c: char) {
    IsAsciiLetter(c) || IsDigit(c) || c == '-'
  }

  predicate IsAtom(s: string) {
    s != [] && forall i :: 0 <= i < |s| ==> IsLocalChar(s[i])
  }

  predicate IsLabel(s: string) {
    s != [] && forall i :: 0 <= i < |s| ==> IsLabelChar(s[i])
  }

  predicate IsTld(s: string) {
    |s| >= 2 && forall i :: 0 <= i < |s| ==> IsAsciiLetter(s[i])
  }

  /** The local part: one or more atoms separated by single dots. */
  predicate LocalPartOk(s: string) {
    var atoms := Split(s, '.');
    forall k :: 0 <= k < |atoms| ==> IsAtom(atoms[k])
  }

  /** The domain: one or more labels each followed by a dot, then a top-level name of two or more letters. */
  predicate DomainOk(s: string) {
    var labels := Split(s, '.');
    |labels| >= 2 && IsTld(labels[|labels| - 1])
    && forall k :: 0 <= k < |labels| - 1 ==> IsLabel(labels[k])
  }

  /** The e-mail validator of the guest schema: a local part, `@`, a domain. Neither part can hold
      an `@`, so the split is at the first one. */
  predicate IsValidGuestEmail(s: string) {
    match IndexOfChar(s, '@')
    case None => false
    case Some(i) => LocalPartOk(s[..i]) && DomainOk(s[i + 1..])
  }

  function IndexOfChar(s: string, c: char): (r: Option<nat>)
    ensures r.Some? ==> r.value < |s| && s[r.value] == c && c !in s[..r.value]
    ensures r.None? ==> c !in s
  {
    if s == [] then None
    else if s[0] == c then Some(0)
    else
      match IndexOfChar(s[1..], c)
      case None => None
      case Some(i) =>
        assert s[..i + 1] == [s[0]] + s[1..][..i];
        Some(i + 1)
  }

  /** The string the regular expression describes for the given parts. */
  function EmailOf(atoms: seq<string>, labels: seq<string>, tld: string): string {
    Join(atoms, '.') + "@" + Join(labels + [tld], '.')
  }

  predicate PatternParts(atoms: seq<string>, labels: seq<string>, tld: string) {
    && |atoms| >= 1 && (forall k :: 0 <= k < |atoms| ==> IsAtom(atoms[k]))
    && |labels| >= 1 && (forall k :: 0 <= k < |labels| ==> IsLabel(labels[k]))
    && IsTld(tld)
  }

  /** The language of the validator's regular expression
      `^[A-Za-z0-9_'^&/+-]+(\.[A-Za-z0-9_'^&/+-]+)*@([A-Za-z0-9-]+\.)+[A-Za-z]{2,}$`. */
  ghost predicate MatchesEmailPattern(s: string) {
    exists atoms, labels, tld :: PatternParts(atoms, labels, tld) && EmailOf(atoms, labels, tld) == s
  }

  /** The validator accepts exactly the strings the regular expression matches. */
  lemma EmailValidatorMatchesPattern(s: string)
    ensures IsValidGuestEmail(s) <==> MatchesEmailPattern(s)
  {
    if IsValidGuestEmail(s) {
      var i := IndexOfChar(s, '@').value;
      var atoms := Split(s[..i], '.');
      var parts := Split(s[i + 1..], '.');
      var labels, tld := parts[..|parts| - 1], parts[|parts| - 1];
      assert labels + [tld] == parts;
      assert s == s[..i] + "@" + s[i + 1..];
      assert PatternParts(atoms, labels, tld);
      assert EmailOf(atoms, labels, tld) == s;
    }
    if MatchesEmailPattern(s) {
      var atoms, labels, tld :| PatternParts(atoms, labels, tld) && EmailOf(atoms, labels, tld) == s;
      PatternIsValid(atoms, labels, tld);
    }
  }

  lemma PatternIsValid(atoms: seq<string>, labels: seq<string>, tld: string)
    requires PatternParts(atoms, labels, tld)
    ensures IsValidGuestEmail(EmailOf(atoms, labels, tld))
  {
    var local, domain := Join(atoms, '.'), Join(labels + [tld], '.');
    var parts := labels + [tld];
    var s := EmailOf(atoms, labels, tld);
    forall k | 0 <= k < |atoms| ensures '@' !in atoms[k] && '.' !in atoms[k] {
      AtomHasNo(atoms[k], '@');
      AtomHasNo(atoms[k], '.');
    }
    forall k | 0 <= k < |parts| ensures '.' !in parts[k] {
      if k < |labels| {
        LabelHasNo(parts[k], '.');
      } else {
        assert parts[k] == tld;
        TldHasNo(tld, '.');
      }
    }
    JoinHasNo(atoms, '.', '@');
    assert s == local + "@" + domain;
    assert s[|local|] == '@';
    assert s[..|local|] == local;
    var i := IndexOfChar(s, '@');
    assert i.Some?;
    assert i.value == |local|;
    assert s[i.value + 1..] == domain;
    SplitJoin(atoms, '.');
    SplitJoin(parts, '.');
  }

  lemma AtomHasNo(s: string, c: char)
    requires IsAtom(s) && !IsLocalChar(c)
    ensures c !in s
  {
  }

  lemma LabelHasNo(s: string, c: char)
    requires IsLabel(s) && !IsLabelChar(c)
    ensures c !in s
  {
  }

  lemma TldHasNo(s: string, c: char)
    requires IsTld(s) && !IsAsciiLetter(c)
    ensures c !in s
  {
  }

  lemma {:induction false} JoinHasNo(pieces: seq<string>, sep: char, c: char)
    requires c != sep
    requires forall k :: 0 <= k < |pieces| ==> c !in pieces[k]
    ensures c !in Join(pieces, sep)
  {
    if |pieces| > 1 {
      JoinHasNo(pieces[1..], sep, c);
    }
  }

  // ---------------------------------------------------------------------------
  // Reservations

  datatype Reservation = Reservation(
    id: Id,
    guest: Option<Id>,
    roomNumber: int,
    guestName: string,
    guestEmail: string,
    guestPhone: string,
    checkIn: int,
    checkOut: int,
    numberOfGuests: Option<int>,
    totalPrice: Option<int>,
    totalPaid: int,
    balanceDue: Option<int>,
    notes: string,
    status: ReservationStatus)

  /** Two versions of one reservation that agree on everything but the ledger (`totalPaid`,
      `balanceDue`) and the status. */
  predicate SameBooking(a: Reservation, b: Reservation) {
    && a.id == b.id && a.guest == b.guest && a.roomNumber == b.roomNumber
    && a.guestName == b.guestName && a.guestEmail == b.guestEmail && a.guestPhone == b.guestPhone
    && a.checkIn == b.checkIn && a.checkOut == b.checkOut
    && a.numberOfGuests == b.numberOfGuests && a.totalPrice == b.totalPrice && a.notes == b.notes
  }

  /** The reservation schema: the contact fields and both dates are required (the dates are always
      present in this model), `numberOfGuests >= 1`, `totalPrice >= 0` (both required),
      `totalPaid >= 0` and, when set, `balanceDue >= 0`. */
  predicate ReservationSchemaValid(r: Reservation) {
    && r.guestName != "" && r.guestEmail != "" && r.guestPhone != ""
    && r.numberOfGuests.Some? && r.numberOfGuests.value >= 1
    && r.totalPrice.Some? && r.totalPrice.value >= 0
    && r.totalPaid >= 0
    && (r.balanceDue.None? || r.balanceDue.value >= 0)
    && r.notes == Trim(r.notes)
  }

  /** `new Reservation({...})` with the schema's defaults: nothing paid yet, the balance due equal to
      the total price (absent when the price is), no notes, status as given. */
  function NewReservation(
    id: Id, roomNumber: int, guestName: string, guestEmail: string, guestPhone: string,
    checkIn: int, checkOut: int, numberOfGuests: Option<int>, totalPrice: Option<int>,
    status: ReservationStatus): (r: Reservation)
    ensures r.totalPaid == 0 && r.balanceDue == totalPrice && r.status == status && r.guest == None
    ensures (guestName != "" && guestEmail != "" && guestPhone != ""
             && numberOfGuests.Some? && numberOfGuests.value >= 1
             && totalPrice.Some? && totalPrice.value >= 0) <==> ReservationSchemaValid(r)
  {
    Reservation(id, None, roomNumber, guestName, guestEmail, guestPhone, checkIn, checkOut,
                numberOfGuests, totalPrice, 0, totalPrice, "", status)
  }

  // ---------------------------------------------------------------------------
  // Payments

  datatype Payment = Payment(
    id: Id,
    reservation: Id,
    guest: Option<Id>,
    amount: int,
    paymentMethod: PaymentMethod,
    reference: string,
    notes: string,
    paidAt: int,
    recordedBy: string)

  /** An optional free-text field through the schema's trimming setter: the empty string when it is
      absent, and a string the setter leaves as it is. */
  function TrimmedText(s: Option<string>): (r: string)
    ensures s.None? ==> r == ""
    ensures s.Some? ==> r == Trim(s.value)
    ensures Trim(r) == r
  {
    TrimIdempotent(OrEmpty(s));
    Trim(OrEmpty(s))
  }

  /** The payment schema: `amount >= 0`, the method from the enumeration (by its type), and trimmed
      free-text fields. */
  predicate PaymentSchemaValid(p: Payment) {
    p.amount >= 0 && p.reference == Trim(p.reference) && p.notes == Trim(p.notes) && p.recordedBy == Trim(p.recordedBy)
  }

  // ---------------------------------------------------------------------------
  // Users

  /** A back-office user account; the user schema's own file is not part of this model, and the five
      fields are the ones the authentication service reads and writes. */
  datatype User = User(
    id: Id,
    firstName: string,
    lastName: string,
    email: string,
    passwordHash: string,
    role: string)
}
