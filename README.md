# Hotel and Guest persistence, modelled in Dafny

This project models the persistence layer of a small hotel-booking CLI. The
layer has two active-record entities. A `Hotel` has a name and a location. A
`Guest` has a name and the key of their hotel. Each entity validates its fields
in property setters, writes itself to a SQLite table, and keeps a class-level
identity cache `all` from primary key to the live instance. The project also
models `fuzzy_match`, the CLI helper that filters a list of entities by a
pattern on their names.

The model is built like this:

- **Tables.** The two tables are sequences of rows kept in rowid order:
  `Database.hotels` and `Database.guests` (`table.dfy`). Each SQL statement the
  entities issue is a function on such a sequence:
  - `FetchOne` is `SELECT` then `fetchone()`;
  - `Where` is `SELECT` then `fetchall()`;
  - `UpdateWhere` is `UPDATE`;
  - `DeleteWhere` is `DELETE`.
- **Fresh keys.** A new row gets SQLite's key for a table without
  AUTOINCREMENT (`NextRowId`): one more than the largest key in the table, or 1
  when the table is empty.
- **Caches.** The caches `Hotel.all` and `Guest.all` are `map` fields of the
  same `Database` object.
- **Coherence.** `Database.Valid()` is the invariant every operation keeps,
  except `save` on an instance that is already cached (see below):
  - both tables are in rowid order;
  - every cache key is the key of a row of its table;
  - every cached instance's `id` is its key.
- **Entities.** `Hotel` and `Guest` are classes whose setters, `save`,
  `update`, `delete` and `instance_from_db` change fields, tables and caches in
  place.
- **Errors.** Python's exceptions become `Result` / `Outcome` values. Python's
  dynamically typed setter arguments become `Value` (a str, an int, or
  anything else). `sqlite3` binds a Python int only within SQLite's 64-bit
  INTEGER range and raises OverflowError outside it (`FitsInt64`). Lookups by
  key and the `hotel_id` check raise that error for such keys.
- **Foreign keys.** The model assumes SQLite's foreign-key enforcement is off,
  which is SQLite's default. `models/__init__.py`, which could turn it on, is
  not part of this model.
- **`fuzzy_match`.** `FuzzyMatch` is a loop proved equal to the
  order-preserving filter `NameFilter`. The compiled regular expression is a
  parameter, `search`.

Some behaviour of the source becomes visible in the proofs. The first three
hold while foreign-key enforcement is off; with it on, the DELETE in
`Hotel.delete` would raise instead.

- `Hotel.delete` leaves the hotel's guest rows behind.
- Rebuilding such a guest then fails the `hotel_id` check. So `Guest.get_all`
  raises (`DeleteHotelStrandsGuest`) until a hotel with that key exists again
  or the stranded guest is updated to an existing hotel or deleted.
- If the deleted hotel had the largest key, the next hotel created reuses that
  key and adopts the stranded guests (`DeletedKeyIsReused`).
- Calling `save` a second time on an instance that is already cached leaves the
  old key mapped to an instance whose `id` has moved on. `Hotel.Save` and
  `Guest.Save` state exactly when the caches stay coherent: when the instance
  was not already cached.

## Model

| member | source | states |
|---|---|---|
| NextRowId | lib/models/hotel.py:78 | the key `lastrowid` reports after an INSERT is held by no row and is larger than every key in the table |
| MaxId | lib/models/hotel.py:78 | the largest key of a non-empty table bounds every key and is itself the key of a row |
| AppendKeepsOrder | lib/models/hotel.py:70-78 | inserting a row under the fresh key keeps the table in rowid order and adds exactly that key |
| FetchOne | lib/models/hotel.py:159-160 | `fetchone()` yields nothing exactly when no row matches, and otherwise the first matching row in table order |
| Where | lib/models/hotel.py:146 | `fetchall()` returns every matching row and only matching rows of the table |
| WhereIsSubsequence | lib/models/hotel.py:141-148 | the fetched rows keep the table's order |
| WhereKeepsOrder | lib/models/hotel.py:141-148 | rows fetched from a table in rowid order come back in rowid order |
| DeleteWhere | lib/models/hotel.py:105-110 | DELETE leaves exactly the rows the WHERE clause does not select |
| DeleteKeepsOrder | lib/models/hotel.py:105-110 | the rows left by a DELETE stay in rowid order |
| DeleteKeepsOtherKeys | lib/models/hotel.py:105-110 | after `DELETE ... WHERE id = k`, key `k` is gone and every other key remains |
| UpdateWhere | lib/models/hotel.py:90-97 | UPDATE rewrites the name and third column of exactly the selected rows, keeps their keys and leaves every other row unchanged |
| UpdateKeepsKeys | lib/models/hotel.py:90-97 | an UPDATE changes no key: order and key set are preserved |
| NullMatchesNoGuest | lib/models/hotel.py:177-181 | `WHERE hotel_id = ?` with a NULL parameter (unsaved hotel) selects no guest |
| Database.constructor | lib/models/hotel.py:5 | fresh tables and empty caches satisfy the coherence invariant |
| Hotel.New | lib/models/hotel.py:7-10 | construction raises the name error for a non-text name, else the location error for a non-text location, else yields a fresh instance with exactly the given values |
| Hotel.SetName | lib/models/hotel.py:16-21 | a non-empty str is stored; anything else raises and keeps the old name |
| Hotel.SetLocation | lib/models/hotel.py:27-32 | a non-empty str is stored; anything else raises and keeps the old location |
| Hotel.Save | lib/models/hotel.py:66-79 | one row (fresh key, name, location) is appended, `id` becomes that key, `all[id]` is the instance, and the caches stay coherent exactly when the instance was not cached before |
| Hotel.Create | lib/models/hotel.py:81-86 | invalid input raises the first setter error and writes nothing; valid input appends one row under the fresh key and caches a fresh instance reflecting it, keeping coherence |
| Hotel.Update | lib/models/hotel.py:88-99 | a failing setter raises before any write, with the name already changed when only the location is bad; otherwise exactly the row keyed `id` is rewritten and the instance itself is returned |
| Hotel.Delete | lib/models/hotel.py:101-119 | the row keyed `id` is removed and other rows stay; if `id` was cached its entry is removed, `id` becomes None and the instance is returned, otherwise KeyError is raised after the DELETE |
| Hotel.InstanceFromDb | lib/models/hotel.py:121-136 | the result reflects the row, is the cached instance when the key was cached and a fresh one otherwise, and afterwards `all[row id]` is the result |
| Hotel.GetAll | lib/models/hotel.py:138-148 | exactly one instance per row, in table order, each the cached instance for its key and reflecting its row; no cache entry is lost |
| Hotel.FindById | lib/models/hotel.py:150-160 | OverflowError exactly when the key is outside SQLite's 64-bit range; otherwise None exactly when no row has the key, else the cached instance for that key, reflecting its row; nothing changes unless an instance is found |
| Hotel.FindByName | lib/models/hotel.py:162-172 | None exactly when no row has the name; otherwise the instance of the first such row in table order |
| Hotel.Guests | lib/models/hotel.py:174-184 | the cached instances of exactly the guest rows whose `hotel_id` is this hotel's key, in table order; it cannot fail while this hotel's row exists, and an unsaved hotel has no guests; every other cached guest keeps its name and `hotel_id` |
| Guest.New | lib/models/guest.py:8-11 | construction raises the name error for a non-text name, else the `hotel_id` setter's error (OverflowError for an int beyond 64 bits, otherwise the hotel error) unless `hotel_id` is an int naming a hotel row, else yields a fresh instance with exactly the given values |
| Guest.SetName | lib/models/guest.py:17-22 | a non-empty str is stored; anything else raises and keeps the old name |
| Guest.SetHotelId | lib/models/guest.py:28-33 | an int that is the key of a hotels row is stored; anything else raises and keeps the old value: OverflowError for an int beyond 64 bits, which the lookup cannot bind, otherwise the hotel error |
| Guest.Save | lib/models/guest.py:69-82 | one row (fresh key, name, hotel_id) is appended, `id` becomes that key, `all[id]` is the instance, and the caches stay coherent exactly when the instance was not cached before |
| Guest.Create | lib/models/guest.py:116-121 | a blank name or a `hotel_id` naming no hotel raises the setter's error and inserts no row; valid input appends one row under the fresh key and caches a fresh instance reflecting it |
| Guest.Update | lib/models/guest.py:84-95 | both fields are re-validated before any write; a failure raises the setter's error with the table unchanged; otherwise exactly the row keyed `id` is rewritten and the instance is returned |
| Guest.Delete | lib/models/guest.py:97-113 | the row keyed `id` is removed and other rows stay; if `id` was cached its entry is removed and `id` becomes None, otherwise KeyError is raised after the DELETE |
| Guest.InstanceFromDb | lib/models/guest.py:123-138 | raises exactly when the row's `hotel_id` names no hotel, and then leaves the cache as it was; otherwise the result reflects the row, is the cached instance or a fresh one, and is `all[row id]` afterwards |
| Guest.InstancesFromRows | lib/models/guest.py:148-150 | instantiating fetched rows in order raises exactly when some row names no hotel; otherwise it yields one cached instance per row, in order; it may change only the cached instances for the keys of those rows, so every other cached guest keeps its name and `hotel_id` |
| Guest.GetAll | lib/models/guest.py:140-150 | raises exactly when some guest row names no hotel; otherwise one cached instance per row, in table order |
| Guest.FindById | lib/models/guest.py:152-162 | OverflowError when the key is outside SQLite's 64-bit range; otherwise `Ok(None)` exactly when no row has the key, the hotel error exactly when that row names no hotel, else the cached instance for the key, reflecting its row; the cache is unchanged unless an instance is found, and on the hotel error a cached instance for the key already holds the row's name and keeps its `hotel_id` |
| Guest.FindByName | lib/models/guest.py:164-174 | `Ok(None)` exactly when no row has the name; otherwise the first such row's instance, or the hotel error exactly when that row names no hotel; the cache is unchanged unless an instance is found, and on the hotel error a cached instance for the row's key already holds the row's name and keeps its `hotel_id` |
| Guest.FindByNameLength | lib/models/guest.py:176-180 | raises `get_all()`'s hotel error exactly when some guest row names no hotel; otherwise the cached instances of exactly the rows whose name has at most `length` characters, in table order, with every guest row's cached instance refreshed from its row as `get_all()` leaves it; every instance cached before stays cached under its key |
| ShortNamesFollowRows | lib/models/guest.py:176-180 | filtering the instances of the rows by name picks the instances of the rows that the same name test selects, in the same order |
| NameFilter | lib/helpers.py:47-58 | the filtered list is never longer than the input, and an empty input gives an empty result |
| NameFilterSound | lib/helpers.py:53-57 | every returned entry is an input entry whose name matches |
| NameFilterComplete | lib/helpers.py:53-57 | every input entry whose name matches is returned |
| NameFilterIsSubsequence | lib/helpers.py:48-58 | the result is a subsequence of the input, in input order |
| NameFilterAppend | lib/helpers.py:53-57 | one more input entry appends it to the result exactly when its name matches |
| FuzzyMatch | lib/helpers.py:47-58 | the loop returns exactly the order-preserving filter of the entries whose name the compiled pattern matches, and changes nothing |
| ContainsAt | lib/helpers.py:50-55 | a metacharacter-free pattern matches any name that has it at some offset |
| ContainsHasOffset | lib/helpers.py:50-55 | conversely, a name the pattern matches has the pattern at some offset |
| FuzzyMatchExample | lib/helpers.py:50-55 | searching "an" over the names "Sandy" and "Oak" returns "Sandy" alone |
| CreateThenFindHotel | lib/testing/hotel_orm_test.py:165-184 | `find_by_id` on the key `create` assigned returns the very instance created, holding the values it was created from, whenever that key fits 64 bits |
| DeleteThenFindHotel | lib/testing/hotel_orm_test.py:103-128 | after `delete`, `find_by_id` with the old key finds nothing (OverflowError for a key beyond 64 bits), the cache entry is gone, name and location are kept and every other key remains |
| CreateGuestForMissingHotel | lib/testing/guest_property_test.py:46-48 | `Guest.create` with a key that names no hotel raises the name error, the hotel error, or OverflowError for a key beyond 64 bits, and writes nothing |
| SeedHotels | lib/testing/hotel_orm_test.py:214-216 | two creates on fresh tables give the keys 1 and 2 |
| SeedHotelsAndGuests | lib/testing/hotel_orm_test.py:219-221 | three guest creates give rows keyed 1, 2 and 3 with their hotel keys, each cached under its key |
| GuestsOfHotel | lib/testing/hotel_orm_test.py:208-229 | the first hotel's `guests()` is exactly its two guests, in creation order |
| StrandGuest | lib/models/hotel.py:101-119 | deleting a hotel leaves its guest's row naming a key no hotel has |
| DeleteHotelStrandsGuest | lib/models/guest.py:140-150 | once a guest's hotel is deleted, `Guest.get_all()` raises the hotel error |
| DeletedKeyIsReused | lib/models/hotel.py:66-79 | a hotel created after the hotel with the largest key was deleted takes that key, and its `guests()` are the stranded guests |
| SeedTalAndRaha | lib/models/guest.py:116-121 | two guest creates in one hotel give the rows keyed 1 and 2, each cached under its key |
| ShortNamesAreCachedGuests | lib/models/guest.py:176-180 | `find_by_name_length(3)` over "Tal" and "Raha" returns exactly the instance created for "Tal" |
| LongNamesStayRefreshed | lib/models/guest.py:176-180 | after `find_by_name_length(3)` the instance created for "Raha", which it does not return, still holds that row's name and hotel key |
| OtherHotelsGuestsUntouched | lib/models/hotel.py:174-184 | the first hotel's `guests()` leaves the second hotel's guest "Amir" with its name and hotel key |

## Left out

- `create_table` / `drop_table`: schema statements only. The `Database` constructor stands for freshly created, empty tables.
- `__repr__` / `__str__`: string formatting only.
- SQL text, the cursor and `CONN.commit()`: the tables are sequences, and each statement takes effect at once. `models/__init__.py`, which opens the connection, is not part of this model.
- Foreign-key enforcement by SQLite: the model assumes it is off, SQLite's default. If `models/__init__.py` (not part of this model) turned it on with `PRAGMA foreign_keys=ON`, the DELETE in `Hotel.delete` would raise IntegrityError for a hotel that still has guests. `Hotel.Delete`, `StrandGuest`, `DeleteHotelStrandsGuest` and `DeletedKeyIsReused` describe the default only.
- Rowid exhaustion: `NextRowId` is unbounded. It does not model SQLite's fallback to a random unused key once the largest key reaches 2^63-1. The keys `Hotel.Update`, `Hotel.Delete`, `Hotel.Guests` and the Guest counterparts bind come from a row, or from the `id` argument of `Hotel.New` / `Guest.New`, which no caller in the source passes. The model does not check them against the 64-bit range.
- Guest.SetHotelId: the check reads the hotels table directly. It does not model the write `Hotel.find_by_id` makes to the Hotel cache along the way, where it refreshes or registers the Hotel instance for that key.
- Guest.SetHotelId: a Python `bool` is passed as `Other` and rejected, whereas `isinstance(True, int)` holds in Python. Bool keys are not modelled.
- Hotel.InstanceFromDb: its refresh through the setters cannot fail here. Rows hold non-blank strings because this layer writes only validated values. Rows written by other programs, with NULL or empty names, are not modelled.
- Guest.InstancesFromRows, Guest.GetAll, Hotel.Guests, Guest.FindByNameLength: on an error the contract promises only that no cache entry is lost. It does not state the partial effects: instances registered for the rows before the failing one, and the new name of a failing cached guest.
- Guest.InstanceFromDb: a row's `hotel_id` is an int within 64 bits. A non-int value written by another program is not modelled.
- Hotel.FindById, Guest.FindById: the key is an int. Python would also accept keys of other types, which SQLite then compares by its own type rules.
- Guest.FindByNameLength: `length` is an int. Float lengths are not modelled.
- FuzzyMatch: the `regex` library is a parameter `search(pattern, name)`. Only metacharacter-free patterns get a concrete meaning (`Contains`). A pattern that fails to compile raises in the source, and that error is not modelled.
- The CLI (`lib/cli.py`, `lib/commands.py`, `lib/app.py`), the seeding script `lib/debug.py` and the other helpers in `lib/helpers.py`: interactive terminal I/O.
