// The process-wide SQLite connection (CONN/CURSOR) together with the two
// class-level identity caches `Hotel.all` and `Guest.all`, gathered into one
// object that every operation receives explicitly.

class Database {
  /** The `hotels` table: (id, name, location) rows in rowid order. */
  var hotels: seq<HotelRow>
  /** The `guests` table: (id, name, hotel_id) rows in rowid order. */
  var guests: seq<GuestRow>
  /** `Hotel.all`: primary key to the live Hotel instance for that row. */
  var hotelCache: map<int, Hotel>
  /** `Guest.all`: primary key to the live Guest instance for that row. */
  var guestCache: map<int, Guest>

  /** Both tables are scanned in rowid order, and each cache maps a key of its
      table to an instance whose `id` is that key. */
  ghost predicate Valid()
    reads this, hotelCache.Values, guestCache.Values
  {
    && Ordered(hotels)
    && Ordered(guests)
    && (forall k | k in hotelCache :: HasId(hotels, k) && hotelCache[k].id == Some(k))
    && (forall k | k in guestCache :: HasId(guests, k) && guestCache[k].id == Some(k))
  }

  /** Freshly created tables and empty caches. */
  constructor ()
    ensures Valid()
    ensures hotels == [] && guests == [] && hotelCache == map[] && guestCache == map[]
  {
    hotels, guests := [], [];
    hotelCache, guestCache := map[], map[];
  }

  /** The referential check of the Guest `hotel_id` setter passes: an int that
      `sqlite3` can bind and that is the key of a hotels row. */
  predicate NamesHotel(v: Value)
    reads this
  {
    v.Int? && FitsInt64(v.i) && HasId(hotels, v.i)
  }

  /** A guests row whose `hotel_id` names no hotels row. */
  predicate Dangles(row: GuestRow)
    reads this
  {
    !HasId(hotels, row.third)
  }

  /** `h` is the instance some key of `Hotel.all` maps to. */
  ghost predicate HotelRegistered(h: Hotel)
    reads this
  {
    exists k | k in hotelCache :: hotelCache[k] == h
  }

  /** `g` is the instance some key of `Guest.all` maps to. */
  ghost predicate GuestRegistered(g: Guest)
    reads this
  {
    exists k | k in guestCache :: guestCache[k] == g
  }

  /** The cached Hotel for key `k`, if any: what `instance_from_db` may refresh. */
  function CachedHotel(k: int): set<Hotel>
    reads this
  {
    if k in hotelCache then {hotelCache[k]} else {}
  }

  /** The cached Guest for key `k`, if any: what `instance_from_db` may refresh. */
  function CachedGuest(k: int): set<Guest>
    reads this
  {
    if k in guestCache then {guestCache[k]} else {}
  }

  /** The cached Guests for the keys of `rows`: what instantiating those rows
      may refresh. */
  function CachedGuests(rows: seq<GuestRow>): set<Guest>
    reads this
  {
    set k | k in guestCache && HasId(rows, k) :: guestCache[k]
  }
}
