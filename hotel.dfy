// The Hotel active record: validating setters, persistence through the
// `hotels` table, and lookups that go through the identity cache `Hotel.all`.

class Hotel {
  /** None until the instance is saved, and again after it is deleted. */
  var id: Option<int>
  var name: NonBlank
  var location: NonBlank

  /** Builds an instance from values that already passed the setters. */
  constructor (name: NonBlank, location: NonBlank, id: Option<int>)
    ensures this.id == id && this.name == name && this.location == location
  {
    this.id := id;
    this.name := name;
    this.location := location;
  }

  /** The instance holds exactly the values of `row`, key included. */
  predicate Reflects(row: HotelRow)
    reads this
  {
    id == Some(row.id) && name == row.name && location == row.third
  }

  /** `Hotel(name, location, id)`: the constructor runs the name setter, then
      the location setter, and raises the first error either reports. */
  static method New(name: Value, location: Value, id: Option<int>) returns (r: Result<Hotel>)
    ensures !IsText(name) ==> r == Err(BlankHotelName)
    ensures IsText(name) && !IsText(location) ==> r == Err(BlankLocation)
    ensures IsText(name) && IsText(location) ==>
      r.Ok? && fresh(r.value) && r.value.id == id && r.value.name == name.s && r.value.location == location.s
  {
    if !IsText(name) {
      return Err(BlankHotelName);
    }
    if !IsText(location) {
      return Err(BlankLocation);
    }
    var hotel := new Hotel(name.s, location.s, id);
    return Ok(hotel);
  }

  /** The `name` setter: a non-empty str is stored; anything else raises and
      leaves the old name. */
  method SetName(name: Value) returns (outcome: Outcome)
    modifies this`name
    ensures outcome == if IsText(name) then Pass else Fail(BlankHotelName)
    ensures this.name == if IsText(name) then name.s else old(this.name)
  {
    if IsText(name) {
      this.name := name.s;
      return Pass;
    }
    return Fail(BlankHotelName);
  }

  /** The `location` setter: a non-empty str is stored; anything else raises and
      leaves the old location. */
  method SetLocation(location: Value) returns (outcome: Outcome)
    modifies this`location
    ensures outcome == if IsText(location) then Pass else Fail(BlankLocation)
    ensures this.location == if IsText(location) then location.s else old(this.location)
  {
    if IsText(location) {
      this.location := location.s;
      return Pass;
    }
    return Fail(BlankLocation);
  }

  /** INSERT a row with this instance's name and location, take the new key as
      `id` and register the instance under it. The caches stay coherent exactly
      when the instance was not already registered: saving a registered instance
      again leaves its old key pointing at an object whose id has moved on. */
  method Save(db: Database)
    requires db.Valid()
    modifies this`id, db`hotels, db`hotelCache
    ensures id == Some(NextRowId(old(db.hotels)))
    ensures db.hotels == old(db.hotels) + [Row(id.value, name, location)]
    ensures db.hotelCache == old(db.hotelCache)[id.value := this]
    ensures db.Valid() <==> !old(db.HotelRegistered(this))
  {
    ghost var cache := db.hotelCache;
    ghost var registered := db.HotelRegistered(this);
    var key := NextRowId(db.hotels);
    AppendKeepsOrder(db.hotels, name, location);
    db.hotels := db.hotels + [Row(key, name, location)];
    id := Some(key);
    db.hotelCache := db.hotelCache[key := this];
    if registered {
      var k :| k in cache && cache[k] == this;
      assert HasId(old(db.hotels), k);
      assert db.hotelCache[k].id != Some(k);
    }
  }

  /** `Hotel.create`: construct (validating both fields), then save. Nothing is
      written when validation fails. */
  static method Create(db: Database, name: Value, location: Value) returns (r: Result<Hotel>)
    requires db.Valid()
    modifies db`hotels, db`hotelCache
    ensures db.Valid()
    ensures !IsText(name) ==> r == Err(BlankHotelName)
    ensures IsText(name) && !IsText(location) ==> r == Err(BlankLocation)
    ensures r.Err? ==> db.hotels == old(db.hotels) && db.hotelCache == old(db.hotelCache)
    ensures IsText(name) && IsText(location) ==>
      var row := Row(NextRowId(old(db.hotels)), name.s, location.s);
      && r.Ok? && fresh(r.value) && r.value.Reflects(row)
      && db.hotels == old(db.hotels) + [row]
      && db.hotelCache == old(db.hotelCache)[row.id := r.value]
  {
    r := New(name, location, None);
    if r.Ok? {
      r.value.Save(db);
    }
  }

  /** `update(name, location)`: run both setters, then UPDATE the row whose key
      is `id` (no row when `id` is None). A failing setter raises before the
      UPDATE, after any earlier setter already changed the instance. */
  method Update(db: Database, name: Value, location: Value) returns (r: Result<Hotel>)
    requires db.Valid()
    modifies this`name, this`location, db`hotels
    ensures db.Valid()
    ensures r == if !IsText(name) then Err(BlankHotelName)
                 else if !IsText(location) then Err(BlankLocation)
                 else Ok(this)
    ensures this.name == if IsText(name) then name.s else old(this.name)
    ensures this.location == if IsText(name) && IsText(location) then location.s else old(this.location)
    ensures db.hotels == if r.Ok? then UpdateWhere(old(db.hotels), IdEquals(id), this.name, this.location)
                         else old(db.hotels)
  {
    var outcome := SetName(name);
    if outcome.Fail? {
      return Err(outcome.error);
    }
    outcome := SetLocation(location);
    if outcome.Fail? {
      return Err(outcome.error);
    }
    UpdateKeepsKeys(db.hotels, IdEquals(id), this.name, this.location);
    db.hotels := UpdateWhere(db.hotels, IdEquals(id), this.name, this.location);
    return Ok(this);
  }

  /** `delete()`: DELETE the row keyed `id`, then remove the cache entry for
      `id` and set `id` to None. When the cache has no entry for `id` (in
      particular when `id` is already None) the removal raises KeyError after
      the DELETE has run. Guest rows that reference the hotel are left alone. */
  method Delete(db: Database) returns (r: Result<Hotel>)
    requires db.Valid()
    modifies this`id, db`hotels, db`hotelCache
    ensures db.Valid()
    ensures db.hotels == DeleteWhere(old(db.hotels), IdEquals(old(id)))
    ensures old(id).Some? && old(id).value in old(db.hotelCache) ==>
      r == Ok(this) && id.None? && db.hotelCache == old(db.hotelCache) - {old(id).value}
    ensures !(old(id).Some? && old(id).value in old(db.hotelCache)) ==>
      r == Err(KeyError) && id == old(id) && db.hotelCache == old(db.hotelCache)
  {
    DeleteKeepsOtherKeys(db.hotels, id);
    DeleteKeepsOrder(db.hotels, IdEquals(id));
    db.hotels := DeleteWhere(db.hotels, IdEquals(id));
    if id.None? || id.value !in db.hotelCache {
      return Err(KeyError);
    }
    db.hotelCache := db.hotelCache - {id.value};
    id := None;
    return Ok(this);
  }

  /** `instance_from_db(row)`: the cached instance for the row's key, refreshed
      through the setters from the row, or else a new instance built from the
      row, given the row's key and registered under it. */
  static method InstanceFromDb(db: Database, row: HotelRow) returns (hotel: Hotel)
    requires db.Valid() && row in db.hotels
    modifies db`hotelCache, db.CachedHotel(row.id)
    ensures db.Valid()
    ensures hotel.Reflects(row)
    ensures db.hotelCache == old(db.hotelCache)[row.id := hotel]
    ensures row.id in old(db.hotelCache) ==> hotel == old(db.hotelCache[row.id])
    ensures row.id !in old(db.hotelCache) ==> fresh(hotel)
  {
    if row.id in db.hotelCache {
      hotel := db.hotelCache[row.id];
      // The row's values passed these setters when they were written.
      var _ := hotel.SetName(Str(row.name));
      var _ := hotel.SetLocation(Str(row.third));
    } else {
      hotel := new Hotel(row.name, row.third, None);
      hotel.id := Some(row.id);
      db.hotelCache := db.hotelCache[row.id := hotel];
    }
  }

  /** One step of `GetAll`: `instance_from_db(hotels[i])` leaves the instances
      already built for the earlier rows as they were. */
  static method InstanceOfRow(db: Database, i: nat, hotels: seq<Hotel>) returns (hotel: Hotel)
    requires db.Valid() && i < |db.hotels| && |hotels| == i
    requires forall j | 0 <= j < i ::
      db.hotels[j].id in db.hotelCache && hotels[j] == db.hotelCache[db.hotels[j].id] && hotels[j].Reflects(db.hotels[j])
    modifies db`hotelCache, db.CachedHotel(db.hotels[i].id)
    ensures db.Valid()
    ensures forall j | 0 <= j <= i ::
      db.hotels[j].id in db.hotelCache && (hotels + [hotel])[j] == db.hotelCache[db.hotels[j].id]
      && (hotels + [hotel])[j].Reflects(db.hotels[j])
    ensures forall k | k in old(db.hotelCache) :: k in db.hotelCache && db.hotelCache[k] == old(db.hotelCache[k])
    ensures forall k | k in db.hotelCache && k !in old(db.hotelCache) :: fresh(db.hotelCache[k])
  {
    forall j | 0 <= j < i ensures hotels[j] !in db.CachedHotel(db.hotels[i].id) {
      assert db.hotels[j].id < db.hotels[i].id;
    }
    hotel := InstanceFromDb(db, db.hotels[i]);
  }

  /** `get_all()`: one instance per row, in table order, each the cached
      instance for its key and holding that row's values. */
  static method GetAll(db: Database) returns (hotels: seq<Hotel>)
    requires db.Valid()
    modifies db`hotelCache, db.hotelCache.Values
    ensures db.Valid()
    ensures |hotels| == |db.hotels|
    ensures forall i | 0 <= i < |hotels| ::
      db.hotels[i].id in db.hotelCache && hotels[i] == db.hotelCache[db.hotels[i].id] && hotels[i].Reflects(db.hotels[i])
    ensures forall k | k in old(db.hotelCache) :: k in db.hotelCache && db.hotelCache[k] == old(db.hotelCache[k])
  {
    hotels := [];
    var i := 0;
    while i < |db.hotels|
      invariant 0 <= i <= |db.hotels|
      invariant db.Valid()
      invariant |hotels| == i
      invariant forall j | 0 <= j < i ::
        db.hotels[j].id in db.hotelCache && hotels[j] == db.hotelCache[db.hotels[j].id] && hotels[j].Reflects(db.hotels[j])
      invariant forall k | k in old(db.hotelCache) :: k in db.hotelCache && db.hotelCache[k] == old(db.hotelCache[k])
      invariant forall k | k in db.hotelCache && k !in old(db.hotelCache) :: fresh(db.hotelCache[k])
    {
      var hotel := InstanceOfRow(db, i, hotels);
      hotels := hotels + [hotel];
      i := i + 1;
    }
  }

  /** `find_by_id(id)`: raises OverflowError when `sqlite3` cannot bind the
      key; otherwise None when no row has that key, else the cached instance
      for it, refreshed from the row. */
  static method FindById(db: Database, id: int) returns (r: Result<Option<Hotel>>)
    requires db.Valid()
    modifies db`hotelCache, db.CachedHotel(id)
    ensures db.Valid()
    ensures r.Err? <==> !FitsInt64(id)
    ensures r.Err? ==> r.error == Overflow
    ensures r == Ok(None) <==> FitsInt64(id) && !HasId(db.hotels, id)
    ensures !(r.Ok? && r.value.Some?) ==> db.hotelCache == old(db.hotelCache) && unchanged(db.CachedHotel(id))
    ensures r.Ok? && r.value.Some? ==>
      && db.hotelCache == old(db.hotelCache)[id := r.value.value]
      && (id in old(db.hotelCache) ==> r.value.value == old(db.hotelCache[id]))
      && forall row | row in db.hotels && row.id == id :: r.value.value.Reflects(row)
  {
    if !FitsInt64(id) {
      return Err(Overflow);
    }
    var found := FetchOne(db.hotels, IdEquals(Some(id)));
    if found.None? {
      return Ok(None);
    }
    var hotel := InstanceFromDb(db, db.hotels[found.value]);
    forall row | row in db.hotels && row.id == id ensures hotel.Reflects(row) {
      var i :| 0 <= i < |db.hotels| && db.hotels[i] == row;
      assert i == found.value;
    }
    return Ok(Some(hotel));
  }

  /** `find_by_name(name)`: None when no row has that name, otherwise the cached
      instance for the first such row, refreshed from it. */
  static method FindByName(db: Database, name: string) returns (r: Option<Hotel>)
    requires db.Valid()
    modifies db`hotelCache,
      var found := FetchOne(db.hotels, NameIs(name));
      if found.Some? then db.CachedHotel(db.hotels[found.value].id) else {}
    ensures db.Valid()
    ensures var found := FetchOne(db.hotels, NameIs(name));
      && (r.None? <==> found.None?)
      && (r.None? ==> db.hotelCache == old(db.hotelCache))
      && (r.Some? ==>
            var row := db.hotels[found.value];
            && r.value.Reflects(row)
            && db.hotelCache == old(db.hotelCache)[row.id := r.value]
            && (row.id in old(db.hotelCache) ==> r.value == old(db.hotelCache[row.id])))
  {
    var found := FetchOne(db.hotels, NameIs(name));
    if found.None? {
      return None;
    }
    var hotel := InstanceFromDb(db, db.hotels[found.value]);
    return Some(hotel);
  }

  /** `guests()`: the guests rows whose hotel_id is this hotel's key, in table
      order, each as its cached Guest instance. Fails only if one of those rows
      names no hotels row, which cannot happen while this hotel's row exists. */
  method Guests(db: Database) returns (r: Result<seq<Guest>>)
    requires db.Valid()
    modifies db`guestCache, db.guestCache.Values
    ensures db.Valid()
    ensures Guest.InstancesOf(db, Where(db.guests, HotelIdEquals(id)), r)
    ensures id.Some? && HasId(db.hotels, id.value) ==> r.Ok?
    ensures id.None? ==> r == Ok([])
    ensures forall k | k in old(db.guestCache) :: k in db.guestCache && db.guestCache[k] == old(db.guestCache[k])
    ensures forall k | k in old(db.guestCache) && !HasId(Where(db.guests, HotelIdEquals(id)), k) ::
      db.guestCache[k].name == old(db.guestCache[k].name) && db.guestCache[k].hotelId == old(db.guestCache[k].hotelId)
  {
    var rows := Where(db.guests, HotelIdEquals(id));
    WhereKeepsOrder(db.guests, HotelIdEquals(id));
    if id.None? {
      NullMatchesNoGuest(db.guests);
    }
    r := Guest.InstancesFromRows(db, rows);
  }
}
