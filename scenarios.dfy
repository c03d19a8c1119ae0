// Round trips the ORM test suites walk through, stated for any starting state
// where they hold in general and from freshly created tables otherwise.

/** `create` then `find_by_id` with the new key gives back the very instance that
    was created, still holding the values it was created from (a key beyond
    SQLite's INTEGER range cannot be bound for the lookup). */
method CreateThenFindHotel(db: Database, name: Value, location: Value) returns (created: Hotel, found: Result<Option<Hotel>>)
  requires db.Valid() && IsText(name) && IsText(location)
  modifies db`hotels, db`hotelCache
  ensures db.Valid()
  ensures created.id == Some(NextRowId(old(db.hotels)))
  ensures found == if FitsInt64(NextRowId(old(db.hotels))) then Ok(Some(created)) else Err(Overflow)
  ensures created.name == name.s && created.location == location.s
{
  var r := Hotel.Create(db, name, location);
  created := r.value;
  var key := created.id.value;
  assert db.hotels[|db.hotels| - 1].id == key;
  found := Hotel.FindById(db, key);
}

/** `delete` then `find_by_id` with the old key finds nothing; the instance
    keeps its name and location and loses its key, and no other key goes. */
method DeleteThenFindHotel(db: Database, hotel: Hotel) returns (found: Result<Option<Hotel>>)
  requires db.Valid() && hotel.id.Some? && hotel.id.value in db.hotelCache
  modifies hotel`id, db`hotels, db`hotelCache
  ensures db.Valid()
  ensures found == if FitsInt64(old(hotel.id).value) then Ok(None) else Err(Overflow)
  ensures hotel.id.None?
  ensures old(hotel.id).value !in db.hotelCache
  ensures hotel.name == old(hotel.name) && hotel.location == old(hotel.location)
  ensures forall k | HasId(old(db.hotels), k) && Some(k) != old(hotel.id) :: HasId(db.hotels, k)
{
  var key := hotel.id.value;
  DeleteKeepsOtherKeys(db.hotels, hotel.id);
  var _ := hotel.Delete(db);
  found := Hotel.FindById(db, key);
}

/** `Guest.create` with a key no hotel has raises and writes nothing: the
    hotel error for a bindable key, OverflowError for one beyond 64 bits. */
method CreateGuestForMissingHotel(db: Database, name: Value, hotelId: int) returns (r: Result<Guest>)
  requires db.Valid() && !HasId(db.hotels, hotelId)
  modifies db`guests, db`guestCache
  ensures r == Err(if !IsText(name) then BlankGuestName else if FitsInt64(hotelId) then UnknownHotel else Overflow)
  ensures db.guests == old(db.guests) && db.guestCache == old(db.guestCache)
{
  r := Guest.Create(db, name, Int(hotelId));
}

/** The hotels of the `guests()` test, from freshly created tables: "Sonder"
    gets key 1 and "Jackal" key 2. */
method SeedHotels() returns (db: Database, hotel1: Hotel)
  ensures fresh(db) && db.Valid()
  ensures hotel1.id == Some(1)
  ensures |db.hotels| == 2 && db.hotels[0].id == 1 && db.hotels[1].id == 2
  ensures db.guests == [] && db.guestCache == map[]
{
  db := new Database();
  var created := Hotel.Create(db, Str("Sonder"), Str("828 Brittle Road"));
  hotel1 := created.value;
  assert |db.hotels| == 1 && db.hotels[0].id == 1;
  created := Hotel.Create(db, Str("Jackal"), Str("Building C, 2nd Floor"));
}

/** The whole fixture of the `guests()` test: guests "Raha" and "Tal" in hotel
    1 and "Amir" in hotel 2, keyed 1, 2 and 3. */
method SeedHotelsAndGuests() returns (db: Database, hotel1: Hotel, guest1: Guest, guest2: Guest, guest3: Guest)
  ensures fresh(db) && fresh(guest1) && fresh(guest2) && fresh(guest3) && db.Valid()
  ensures hotel1.id == Some(1) && HasId(db.hotels, 1)
  ensures |db.guests| == 3
  ensures db.guests[0] == Row(1, "Raha", 1) && db.guests[1] == Row(2, "Tal", 1) && db.guests[2] == Row(3, "Amir", 2)
  ensures db.guestCache == map[1 := guest1, 2 := guest2, 3 := guest3]
  ensures guest3.name == "Amir" && guest3.hotelId == 2
{
  db, hotel1 := SeedHotels();
  assert db.hotels[0].id == 1 && db.hotels[1].id == 2;
  var r := Guest.Create(db, Str("Raha"), Int(1));
  guest1 := r.value;
  assert |db.guests| == 1 && db.guests[0].id == 1;
  r := Guest.Create(db, Str("Tal"), Int(1));
  guest2 := r.value;
  assert |db.guests| == 2 && db.guests[1].id == 2;
  r := Guest.Create(db, Str("Amir"), Int(2));
  guest3 := r.value;
}

/** Of the guest rows of the `guests()` test, the first hotel's are the first two. */
lemma FirstHotelsRows(g: seq<GuestRow>)
  requires |g| == 3 && g[0].third == 1 && g[1].third == 1 && g[2].third == 2
  ensures Where(g, HotelIdEquals(Some(1))) == [g[0], g[1]]
{
  var inHotel1 := HotelIdEquals(Some(1));
  assert g[2..][1..] == [] && g[1..][1..] == g[2..] && g[1..][0] == g[1];
  assert Where(g[2..], inHotel1) == [];
  assert Where(g[1..], inHotel1) == [g[1]];
}

/** Two hotels, two guests in the first and one in the second: the first hotel's
    `guests()` lists its two guests, in the order they were created. */
method GuestsOfHotel() returns (guest1: Guest, guest2: Guest, listed: Result<seq<Guest>>)
  ensures listed == Ok([guest1, guest2])
{
  var db, hotel1, guest3;
  db, hotel1, guest1, guest2, guest3 := SeedHotelsAndGuests();
  FirstHotelsRows(db.guests);
  listed := hotel1.Guests(db);
  assert listed.Ok? && |listed.value| == 2;
  assert listed.value[0] == guest1 && listed.value[1] == guest2;
  assert listed.value == [guest1, guest2];
}

/** From freshly created tables: hotel "Sonder" (key 1) with guest "Raha"
    (key 1), then the hotel is deleted. The guest's row stays behind, naming a
    hotel that is gone. */
method StrandGuest() returns (db: Database, stranded: Guest)
  ensures fresh(db) && fresh(stranded) && db.Valid()
  ensures db.hotels == [] && db.hotelCache == map[]
  ensures |db.guests| == 1 && db.guests[0] == Row(1, "Raha", 1)
  ensures db.guestCache == map[1 := stranded]
{
  db := new Database();
  var hotel := Hotel.Create(db, Str("Sonder"), Str("828 Brittle Road"));
  assert |db.hotels| == 1 && db.hotels[0].id == 1;
  var guest := Guest.Create(db, Str("Raha"), Int(1));
  stranded := guest.value;
  var _ := hotel.value.Delete(db);
  assert db.hotels == Where([], Not(IdEquals(Some(1))));
}

/** Deleting a hotel leaves its guests' rows behind: listing every guest then
    raises, because rebuilding the stranded guest fails the hotel_id check. */
method DeleteHotelStrandsGuest() returns (listed: Result<seq<Guest>>)
  ensures listed == Err(UnknownHotel)
{
  var db, stranded := StrandGuest();
  assert db.Dangles(db.guests[0]);
  listed := Guest.GetAll(db);
}

/** Without AUTOINCREMENT the next key is one past the largest remaining one, so
    a hotel created after the last hotel was deleted takes the deleted hotel's
    key, and the guests stranded by the deletion become its guests. */
method DeletedKeyIsReused() returns (stranded: Guest, listed: Result<seq<Guest>>)
  ensures listed == Ok([stranded])
{
  var db;
  db, stranded := StrandGuest();
  var successor := Hotel.Create(db, Str("Jackal"), Str("Jackal Lane"));
  assert successor.value.id == Some(1);
  assert Where(db.guests, HotelIdEquals(Some(1))) == db.guests;
  listed := successor.value.Guests(db);
  assert listed.Ok? && |listed.value| == 1 && listed.value[0] == stranded;
  assert listed.value == [stranded];
}

/** From freshly created tables: hotel "Sonder" with guests "Tal" and "Raha". */
method SeedTalAndRaha() returns (db: Database, tal: Guest, raha: Guest)
  ensures fresh(db) && fresh(tal) && fresh(raha) && db.Valid()
  ensures HasId(db.hotels, 1)
  ensures |db.guests| == 2 && db.guests[0] == Row(1, "Tal", 1) && db.guests[1] == Row(2, "Raha", 1)
  ensures 1 in db.guestCache && db.guestCache[1] == tal
  ensures 2 in db.guestCache && db.guestCache[2] == raha
  ensures forall g | g in db.guestCache.Values :: fresh(g)
{
  db := new Database();
  var hotel := Hotel.Create(db, Str("Sonder"), Str("828 Brittle Road"));
  assert |db.hotels| == 1 && db.hotels[0].id == 1;
  var r := Guest.Create(db, Str("Tal"), Int(1));
  tal := r.value;
  r := Guest.Create(db, Str("Raha"), Int(1));
  raha := r.value;
  assert db.guestCache == map[1 := tal, 2 := raha];
}

/** `find_by_name_length(3)` returns the very instance created for "Tal", and
    not "Raha", whose name is longer. */
method ShortNamesAreCachedGuests() returns (tal: Guest, short: Result<seq<Guest>>)
  ensures short == Ok([tal])
{
  var db, raha;
  db, tal, raha := SeedTalAndRaha();
  var g, fits := db.guests, NameFits(AtMost(3));
  assert g[1..][1..] == [] && g[1..][0] == g[1];
  assert Where(g[1..], fits) == [];
  assert Where(g, fits) == [g[0]];
  assert !db.Dangles(g[0]) && !db.Dangles(g[1]);
  short := Guest.FindByNameLength(db, 3);
  assert short.Ok? && |short.value| == 1 && short.value[0] == tal;
  assert short.value == [tal];
}

/** `find_by_name_length(3)` refreshes every guest through `get_all()`, also
    those it does not return: "Raha" is left holding its row's values. */
method LongNamesStayRefreshed() returns (raha: Guest, short: Result<seq<Guest>>)
  ensures short.Ok? && raha.name == "Raha" && raha.hotelId == 1
{
  var db, tal;
  db, tal, raha := SeedTalAndRaha();
  var g := db.guests;
  assert !db.Dangles(g[0]) && !db.Dangles(g[1]);
  short := Guest.FindByNameLength(db, 3);
  assert db.guests[1] == Row(2, "Raha", 1);
}

/** `guests()` of the first hotel touches only that hotel's guests: "Amir" of
    the second hotel keeps its values. */
method OtherHotelsGuestsUntouched() returns (guest3: Guest)
  ensures guest3.name == "Amir" && guest3.hotelId == 2
{
  var db, hotel1, guest1, guest2;
  db, hotel1, guest1, guest2, guest3 := SeedHotelsAndGuests();
  FirstHotelsRows(db.guests);
  assert !HasId([db.guests[0], db.guests[1]], 3);
  var _ := hotel1.Guests(db);
}
