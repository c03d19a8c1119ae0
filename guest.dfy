// The Guest active record: validating setters (the hotel_id setter checks that
// the key names a hotels row), persistence through the `guests` table, and
// lookups that go through the identity cache `Guest.all`.

class Guest {
  /** None until the instance is saved, and again after it is deleted. */
  var id: Option<int>
  var name: NonBlank
  var hotelId: Int64

  /** Builds an instance from values that already passed the setters. */
  constructor (name: NonBlank, hotelId: Int64, id: Option<int>)
    ensures this.id == id && this.name == name && this.hotelId == hotelId
  {
    this.id := id;
    this.name := name;
    this.hotelId := hotelId;
  }

  /** The instance holds exactly the values of `row`, key included. */
  predicate Reflects(row: GuestRow)
    reads this
  {
    id == Some(row.id) && name == row.name && hotelId == row.third
  }

  /** The attribute `fuzzy_match` and `find_by_name_length` read. */
  static function NameOf(guest: Guest): string
    reads guest
  {
    guest.name
  }

  /** `r` is what instantiating `rows` one after another gives: an error as soon
      as a row names no hotel, otherwise one cached instance per row, in order,
      each holding its row's values. */
  static ghost predicate InstancesOf(db: Database, rows: seq<GuestRow>, r: Result<seq<Guest>>)
    reads db, db.guestCache.Values
  {
    && (r.Err? <==> exists i | 0 <= i < |rows| :: db.Dangles(rows[i]))
    && (r.Err? ==> r.error == UnknownHotel)
    && (r.Ok? ==>
          && |r.value| == |rows|
          && forall i | 0 <= i < |rows| ::
               rows[i].id in db.guestCache && r.value[i] == db.guestCache[rows[i].id] && r.value[i].Reflects(rows[i]))
  }

  /** `Guest(name, hotel_id, id)`: the constructor runs the name setter, then
      the hotel_id setter, and raises the first error either reports. */
  static method New(db: Database, name: Value, hotelId: Value, id: Option<int>) returns (r: Result<Guest>)
    ensures !IsText(name) ==> r == Err(BlankGuestName)
    ensures IsText(name) && !db.NamesHotel(hotelId) ==> r == Err(HotelIdError(hotelId))
    ensures IsText(name) && db.NamesHotel(hotelId) ==>
      r.Ok? && fresh(r.value) && r.value.id == id && r.value.name == name.s && r.value.hotelId == hotelId.i
  {
    if !IsText(name) {
      return Err(BlankGuestName);
    }
    if !db.NamesHotel(hotelId) {
      return Err(HotelIdError(hotelId));
    }
    var guest := new Guest(name.s, hotelId.i, id);
    return Ok(guest);
  }

  /** The `name` setter: a non-empty str is stored; anything else raises and
      leaves the old name. */
  method SetName(name: Value) returns (outcome: Outcome)
    modifies this`name
    ensures outcome == if IsText(name) then Pass else Fail(BlankGuestName)
    ensures this.name == if IsText(name) then name.s else old(this.name)
  {
    if IsText(name) {
      this.name := name.s;
      return Pass;
    }
    return Fail(BlankGuestName);
  }

  /** The `hotel_id` setter: an int naming a hotels row is stored; anything
      else raises and leaves the old value. The check looks the key up with
      `Hotel.find_by_id`, whose binding of an int outside 64 bits raises
      OverflowError in place of the setter's ValueError. */
  method SetHotelId(db: Database, hotelId: Value) returns (outcome: Outcome)
    modifies this`hotelId
    ensures outcome == if db.NamesHotel(hotelId) then Pass else Fail(HotelIdError(hotelId))
    ensures this.hotelId == if db.NamesHotel(hotelId) then hotelId.i else old(this.hotelId)
  {
    if db.NamesHotel(hotelId) {
      this.hotelId := hotelId.i;
      return Pass;
    }
    return Fail(HotelIdError(hotelId));
  }

  /** INSERT a row with this instance's name and hotel_id (not checked again),
      take the new key as `id` and register the instance under it. The caches
      stay coherent exactly when the instance was not already registered. */
  method Save(db: Database)
    requires db.Valid()
    modifies this`id, db`guests, db`guestCache
    ensures id == Some(NextRowId(old(db.guests)))
    ensures db.guests == old(db.guests) + [Row(id.value, name, hotelId)]
    ensures db.guestCache == old(db.guestCache)[id.value := this]
    ensures db.Valid() <==> !old(db.GuestRegistered(this))
  {
    ghost var cache := db.guestCache;
    ghost var registered := db.GuestRegistered(this);
    var key := NextRowId(db.guests);
    AppendKeepsOrder(db.guests, name, hotelId);
    db.guests := db.guests + [Row(key, name, hotelId)];
    id := Some(key);
    db.guestCache := db.guestCache[key := this];
    if registered {
      var k :| k in cache && cache[k] == this;
      assert HasId(old(db.guests), k);
      assert db.guestCache[k].id != Some(k);
    }
  }

  /** `Guest.create`: construct (validating the name and the hotel reference),
      then save. Nothing is written when validation fails. */
  static method Create(db: Database, name: Value, hotelId: Value) returns (r: Result<Guest>)
    requires db.Valid()
    modifies db`guests, db`guestCache
    ensures db.Valid()
    ensures !IsText(name) ==> r == Err(BlankGuestName)
    ensures IsText(name) && !old(db.NamesHotel(hotelId)) ==> r == Err(HotelIdError(hotelId))
    ensures r.Err? ==> db.guests == old(db.guests) && db.guestCache == old(db.guestCache)
    ensures IsText(name) && old(db.NamesHotel(hotelId)) ==>
      var row := Row(NextRowId(old(db.guests)), name.s, hotelId.i);
      && r.Ok? && fresh(r.value) && r.value.Reflects(row)
      && db.guests == old(db.guests) + [row]
      && db.guestCache == old(db.guestCache)[row.id := r.value]
  {
    r := New(db, name, hotelId, None);
    if r.Ok? {
      r.value.Save(db);
    }
  }

  /** `update(name, hotel_id)`: run both setters, then UPDATE the row whose key
      is `id` (no row when `id` is None). A failing setter raises before the
      UPDATE, after any earlier setter already changed the instance. */
  method Update(db: Database, name: Value, hotelId: Value) returns (r: Result<Guest>)
    requires db.Valid()
    modifies this`name, this`hotelId, db`guests
    ensures db.Valid()
    ensures r == if !IsText(name) then Err(BlankGuestName)
                 else if !db.NamesHotel(hotelId) then Err(HotelIdError(hotelId))
                 else Ok(this)
    ensures this.name == if IsText(name) then name.s else old(this.name)
    ensures this.hotelId == if IsText(name) && db.NamesHotel(hotelId) then hotelId.i else old(this.hotelId)
    ensures db.guests == if r.Ok? then UpdateWhere(old(db.guests), IdEquals(id), this.name, this.hotelId)
                         else old(db.guests)
  {
    var outcome := SetName(name);
    if outcome.Fail? {
      return Err(outcome.error);
    }
    outcome := SetHotelId(db, hotelId);
    if outcome.Fail? {
      return Err(outcome.error);
    }
    UpdateKeepsKeys(db.guests, IdEquals(id), this.name, this.hotelId);
    db.guests := UpdateWhere(db.guests, IdEquals(id), this.name, this.hotelId);
    return Ok(this);
  }

  /** `delete()`: DELETE the row keyed `id`, then remove the cache entry for
      `id` and set `id` to None; returns nothing. When the cache has no entry
      for `id` (in particular when `id` is already None) the removal raises
      KeyError after the DELETE has run. */
  method Delete(db: Database) returns (outcome: Outcome)
    requires db.Valid()
    modifies this`id, db`guests, db`guestCache
    ensures db.Valid()
    ensures db.guests == DeleteWhere(old(db.guests), IdEquals(old(id)))
    ensures old(id).Some? && old(id).value in old(db.guestCache) ==>
      outcome == Pass && id.None? && db.guestCache == old(db.guestCache) - {old(id).value}
    ensures !(old(id).Some? && old(id).value in old(db.guestCache)) ==>
      outcome == Fail(KeyError) && id == old(id) && db.guestCache == old(db.guestCache)
  {
    DeleteKeepsOtherKeys(db.guests, id);
    DeleteKeepsOrder(db.guests, IdEquals(id));
    db.guests := DeleteWhere(db.guests, IdEquals(id));
    if id.None? || id.value !in db.guestCache {
      return Fail(KeyError);
    }
    db.guestCache := db.guestCache - {id.value};
    id := None;
    return Pass;
  }

  /** `instance_from_db(row)`: refresh the cached instance for the row's key
      through the setters, or else build a new instance from the row, give it
      the row's key and register it. Raises when the row's hotel_id names no
      hotels row: a cached instance then already has the row's name, and a
      new instance is never registered. */
  static method InstanceFromDb(db: Database, row: GuestRow) returns (r: Result<Guest>)
    requires db.Valid() && row in db.guests
    modifies db`guestCache, db.CachedGuest(row.id)
    ensures db.Valid()
    ensures db.Dangles(row) ==> r == Err(UnknownHotel) && db.guestCache == old(db.guestCache)
    ensures db.Dangles(row) && row.id in db.guestCache ==>
      db.guestCache[row.id].name == row.name && db.guestCache[row.id].hotelId == old(db.guestCache[row.id].hotelId)
    ensures !db.Dangles(row) ==>
      && r.Ok? && r.value.Reflects(row)
      && db.guestCache == old(db.guestCache)[row.id := r.value]
      && (row.id in old(db.guestCache) ==> r.value == old(db.guestCache[row.id]))
      && (row.id !in old(db.guestCache) ==> fresh(r.value))
  {
    if row.id in db.guestCache {
      var guest := db.guestCache[row.id];
      var _ := guest.SetName(Str(row.name));
      var outcome := guest.SetHotelId(db, Int(row.third));
      if outcome.Fail? {
        return Err(outcome.error);
      }
      return Ok(guest);
    }
    var created := New(db, Str(row.name), Int(row.third), None);
    if created.Err? {
      return created;
    }
    var guest := created.value;
    guest.id := Some(row.id);
    db.guestCache := db.guestCache[row.id := guest];
    return Ok(guest);
  }

  /** `[Guest.instance_from_db(row) for row in rows]`, for rows fetched from the
      guests table: stops at the first row whose hotel_id names no hotel. */
  static method InstancesFromRows(db: Database, rows: seq<GuestRow>) returns (r: Result<seq<Guest>>)
    requires db.Valid() && Ordered(rows)
    requires forall i | 0 <= i < |rows| :: rows[i] in db.guests
    modifies db`guestCache, db.CachedGuests(rows)
    ensures db.Valid()
    ensures InstancesOf(db, rows, r)
    ensures forall k | k in old(db.guestCache) :: k in db.guestCache && db.guestCache[k] == old(db.guestCache[k])
    ensures forall k | k in old(db.guestCache) && !HasId(rows, k) ::
      db.guestCache[k].name == old(db.guestCache[k].name) && db.guestCache[k].hotelId == old(db.guestCache[k].hotelId)
  {
    // A guest cached under a key no row has lies outside the frame.
    forall k | k in db.guestCache && !HasId(rows, k) ensures db.guestCache[k] !in db.CachedGuests(rows) {
      assert db.guestCache[k].id == Some(k);
    }
    var guests := [];
    var i := 0;
    while i < |rows|
      invariant 0 <= i <= |rows|
      invariant db.Valid()
      invariant |guests| == i
      invariant forall j | 0 <= j < i :: !db.Dangles(rows[j])
      invariant forall j | 0 <= j < i ::
        rows[j].id in db.guestCache && guests[j] == db.guestCache[rows[j].id] && guests[j].Reflects(rows[j])
      invariant forall k | k in old(db.guestCache) :: k in db.guestCache && db.guestCache[k] == old(db.guestCache[k])
      invariant forall k | k in db.guestCache && k !in old(db.guestCache) :: fresh(db.guestCache[k])
    {
      var guest := InstanceOfRow(db, rows, i, guests);
      if guest.Err? {
        return Err(guest.error);
      }
      guests := guests + [guest.value];
      i := i + 1;
    }
    return Ok(guests);
  }

  /** One step of `InstancesFromRows`: `instance_from_db(rows[i])` leaves the
      instances already built for the earlier rows as they were. */
  static method InstanceOfRow(db: Database, rows: seq<GuestRow>, i: nat, guests: seq<Guest>) returns (r: Result<Guest>)
    requires db.Valid() && Ordered(rows) && i < |rows| && rows[i] in db.guests && |guests| == i
    requires forall j | 0 <= j < i ::
      rows[j].id in db.guestCache && guests[j] == db.guestCache[rows[j].id] && guests[j].Reflects(rows[j])
    modifies db`guestCache, db.CachedGuest(rows[i].id)
    ensures db.Valid()
    ensures r.Err? <==> db.Dangles(rows[i])
    ensures r.Err? ==> r.error == UnknownHotel
    ensures r.Ok? ==> forall j | 0 <= j <= i ::
      rows[j].id in db.guestCache && (guests + [r.value])[j] == db.guestCache[rows[j].id]
      && (guests + [r.value])[j].Reflects(rows[j])
    ensures forall k | k in old(db.guestCache) :: k in db.guestCache && db.guestCache[k] == old(db.guestCache[k])
    ensures forall k | k in db.guestCache && k !in old(db.guestCache) :: fresh(db.guestCache[k])
  {
    forall j | 0 <= j < i ensures guests[j] !in db.CachedGuest(rows[i].id) {
      assert rows[j].id < rows[i].id;
    }
    r := InstanceFromDb(db, rows[i]);
  }

  /** `get_all()`: one instance per guests row in table order; raises when any
      row names no hotel. */
  static method GetAll(db: Database) returns (r: Result<seq<Guest>>)
    requires db.Valid()
    modifies db`guestCache, db.guestCache.Values
    ensures db.Valid()
    ensures InstancesOf(db, db.guests, r)
    ensures forall k | k in old(db.guestCache) :: k in db.guestCache && db.guestCache[k] == old(db.guestCache[k])
  {
    r := InstancesFromRows(db, db.guests);
  }

  /** `find_by_id(id)`: raises OverflowError when `sqlite3` cannot bind the
      key; otherwise None when no row has that key, else the cached instance
      for it, refreshed from the row, raising when that row's hotel_id names
      no hotel. */
  static method FindById(db: Database, id: int) returns (r: Result<Option<Guest>>)
    requires db.Valid()
    modifies db`guestCache, db.CachedGuest(id)
    ensures db.Valid()
    ensures !FitsInt64(id) ==> r == Err(Overflow)
    ensures r == Ok(None) <==> FitsInt64(id) && !HasId(db.guests, id)
    ensures FitsInt64(id) ==>
      && (r.Err? <==> exists row | row in db.guests && row.id == id :: db.Dangles(row))
      && (r.Err? ==> r.error == UnknownHotel)
    ensures !(r.Ok? && r.value.Some?) ==> db.guestCache == old(db.guestCache)
    ensures r == Ok(None) || r == Err(Overflow) ==> unchanged(db.CachedGuest(id))
    ensures r == Err(UnknownHotel) && id in db.guestCache ==>
      forall row | row in db.guests && row.id == id ::
        db.guestCache[id].name == row.name && db.guestCache[id].hotelId == old(db.guestCache[id].hotelId)
    ensures r.Ok? && r.value.Some? ==>
      && db.guestCache == old(db.guestCache)[id := r.value.value]
      && (id in old(db.guestCache) ==> r.value.value == old(db.guestCache[id]))
      && forall row | row in db.guests && row.id == id :: r.value.value.Reflects(row)
  {
    if !FitsInt64(id) {
      return Err(Overflow);
    }
    var found := FetchOne(db.guests, IdEquals(Some(id)));
    if found.None? {
      return Ok(None);
    }
    var row := db.guests[found.value];
    forall other | other in db.guests && other.id == id ensures other == row {
      var i :| 0 <= i < |db.guests| && db.guests[i] == other;
      assert i == found.value;
    }
    var guest := InstanceFromDb(db, row);
    if guest.Err? {
      return Err(guest.error);
    }
    return Ok(Some(guest.value));
  }

  /** `find_by_name(name)`: None when no row has that name, otherwise the cached
      instance for the first such row, refreshed from it; raises when that
      row's hotel_id names no hotel. */
  static method FindByName(db: Database, name: string) returns (r: Result<Option<Guest>>)
    requires db.Valid()
    modifies db`guestCache,
      var found := FetchOne(db.guests, NameIs(name));
      if found.Some? then db.CachedGuest(db.guests[found.value].id) else {}
    ensures db.Valid()
    ensures var found := FetchOne(db.guests, NameIs(name));
      && (r == Ok(None) <==> found.None?)
      && (r.Err? <==> found.Some? && db.Dangles(db.guests[found.value]))
      && (r.Err? ==> r.error == UnknownHotel)
      && (!(r.Ok? && r.value.Some?) ==> db.guestCache == old(db.guestCache))
      && (r.Err? && db.guests[found.value].id in db.guestCache ==>
            var row := db.guests[found.value];
            db.guestCache[row.id].name == row.name && db.guestCache[row.id].hotelId == old(db.guestCache[row.id].hotelId))
      && (r.Ok? && r.value.Some? ==>
            var row := db.guests[found.value];
            && r.value.value.Reflects(row)
            && db.guestCache == old(db.guestCache)[row.id := r.value.value]
            && (row.id in old(db.guestCache) ==> r.value.value == old(db.guestCache[row.id])))
  {
    var found := FetchOne(db.guests, NameIs(name));
    if found.None? {
      return Ok(None);
    }
    var guest := InstanceFromDb(db, db.guests[found.value]);
    if guest.Err? {
      return Err(guest.error);
    }
    return Ok(Some(guest.value));
  }

  /** `find_by_name_length(length)`: the guests of `get_all()` whose name has at
      most `length` characters, in table order; raises when `get_all()` does. */
  static method FindByNameLength(db: Database, length: int) returns (r: Result<seq<Guest>>)
    requires db.Valid()
    modifies db`guestCache, db.guestCache.Values
    ensures db.Valid()
    ensures r.Err? <==> exists i | 0 <= i < |db.guests| :: db.Dangles(db.guests[i])
    ensures r.Err? ==> r.error == UnknownHotel
    ensures r.Ok? ==> InstancesOf(db, Where(db.guests, NameFits(AtMost(length))), r)
    ensures r.Ok? ==> forall i | 0 <= i < |db.guests| ::
      db.guests[i].id in db.guestCache && db.guestCache[db.guests[i].id].Reflects(db.guests[i])
    ensures forall k | k in old(db.guestCache) :: k in db.guestCache && db.guestCache[k] == old(db.guestCache[k])
  {
    var all := GetAll(db);
    if all.Err? {
      return Err(all.error);
    }
    var short := NameFilter(AtMost(length), all.value, NameOf);
    ShortNamesFollowRows(all.value, db.guests, db.guestCache, AtMost(length));
    var kept := Where(db.guests, NameFits(AtMost(length)));
    forall i | 0 <= i < |kept| ensures !db.Dangles(kept[i]) {
      var j :| 0 <= j < |db.guests| && db.guests[j] == kept[i];
    }
    return Ok(short);
  }
}

/** The error the Guest `hotel_id` setter raises for a value its check rejects:
    OverflowError for an int `sqlite3` cannot bind, otherwise its ValueError. */
function HotelIdError(v: Value): Error
{
  if v.Int? && !FitsInt64(v.i) then Overflow else UnknownHotel
}

/** `len(name) <= length`. */
function AtMost(length: int): string -> bool
{
  name => |name| <= length
}

/** A name test applied to a row's name column. */
function NameFits<C>(keep: string -> bool): Row<C> -> bool
{
  (row: Row<C>) => keep(row.name)
}

/** Filtering the instances of a table by name picks the instances of the rows
    the same name test selects, in the same order. */
lemma {:induction false} ShortNamesFollowRows(guests: seq<Guest>, rows: seq<GuestRow>, cache: map<int, Guest>, keep: string -> bool)
  requires |guests| == |rows|
  requires forall i | 0 <= i < |rows| :: rows[i].id in cache && guests[i] == cache[rows[i].id] && guests[i].name == rows[i].name
  ensures var picked := NameFilter(keep, guests, Guest.NameOf);
          var kept := Where(rows, NameFits(keep));
          && |picked| == |kept|
          && forall i | 0 <= i < |kept| :: kept[i].id in cache && picked[i] == cache[kept[i].id]
{
  if rows != [] {
    ShortNamesFollowRows(guests[1..], rows[1..], cache, keep);
    assert Guest.NameOf(guests[0]) == rows[0].name;
  }
}
