/** `utils/_kv_store.py`: one map for searches and a separate one for bookings.
    `add_*` store under a fresh key; `update_*`, `get_*` and `delete_*` raise
    KeyError for an unknown key. */
module KvStore {
  import opened Wrappers
  import opened Keys
  import opened Records

  datatype Store = Store(searches: map<Key, SearchData>, bookings: map<Key, BookingData>)

  function AddBooking(st: Store, booking: BookingData): (r: (Store, Key))
    ensures r.1 !in st.bookings
    ensures r.0.bookings == st.bookings[r.1 := booking]
    ensures r.0.searches == st.searches
  {
    var key := FreshKey(st.bookings.Keys);
    (st.(bookings := st.bookings[key := booking]), key)
  }

  function AddSearch(st: Store, search: SearchData): (r: (Store, Key))
    ensures r.1 !in st.searches
    ensures r.0.searches == st.searches[r.1 := search]
    ensures r.0.bookings == st.bookings
  {
    var key := FreshKey(st.searches.Keys);
    (st.(searches := st.searches[key := search]), key)
  }

  function UpdateBooking(st: Store, key: Key, booking: BookingData): (r: Result<Store>)
    ensures r.Err? <==> key !in st.bookings
    ensures r.Err? ==> r.error == KeyError
    ensures r.Ok? ==> r.value.bookings == st.bookings[key := booking]
                      && r.value.bookings.Keys == st.bookings.Keys
                      && r.value.searches == st.searches
  {
    if key !in st.bookings then Err(KeyError)
    else Ok(st.(bookings := st.bookings[key := booking]))
  }

  function UpdateSearch(st: Store, key: Key, search: SearchData): (r: Result<Store>)
    ensures r.Err? <==> key !in st.searches
    ensures r.Err? ==> r.error == KeyError
    ensures r.Ok? ==> r.value.searches == st.searches[key := search]
                      && r.value.searches.Keys == st.searches.Keys
                      && r.value.bookings == st.bookings
  {
    if key !in st.searches then Err(KeyError)
    else Ok(st.(searches := st.searches[key := search]))
  }

  function GetBooking(st: Store, key: Key): (r: Result<BookingData>)
    ensures r.Err? <==> key !in st.bookings
    ensures r.Err? ==> r.error == KeyError
    ensures r.Ok? ==> r.value == st.bookings[key]
  {
    if key in st.bookings then Ok(st.bookings[key]) else Err(KeyError)
  }

  function GetSearch(st: Store, key: Key): (r: Result<SearchData>)
    ensures r.Err? <==> key !in st.searches
    ensures r.Err? ==> r.error == KeyError
    ensures r.Ok? ==> r.value == st.searches[key]
  {
    if key in st.searches then Ok(st.searches[key]) else Err(KeyError)
  }

  function DeleteBooking(st: Store, key: Key): (r: Result<Store>)
    ensures r.Err? <==> key !in st.bookings
    ensures r.Err? ==> r.error == KeyError
    ensures r.Ok? ==> r.value.bookings.Keys == st.bookings.Keys - {key}
                      && (forall k :: k in r.value.bookings ==> r.value.bookings[k] == st.bookings[k])
                      && r.value.searches == st.searches
  {
    if key !in st.bookings then Err(KeyError)
    else Ok(st.(bookings := st.bookings - {key}))
  }

  function DeleteSearch(st: Store, key: Key): (r: Result<Store>)
    ensures r.Err? <==> key !in st.searches
    ensures r.Err? ==> r.error == KeyError
    ensures r.Ok? ==> r.value.searches.Keys == st.searches.Keys - {key}
                      && (forall k :: k in r.value.searches ==> r.value.searches[k] == st.searches[k])
                      && r.value.bookings == st.bookings
  {
    if key !in st.searches then Err(KeyError)
    else Ok(st.(searches := st.searches - {key}))
  }

  /** Adding a booking and reading it back returns it; deleting it again
      restores the store exactly. */
  lemma AddBookingRoundTrip(st: Store, booking: BookingData)
    ensures var (st', key) := AddBooking(st, booking);
            GetBooking(st', key) == Ok(booking)
            && DeleteBooking(st', key) == Ok(st)
  {
    var (st', key) := AddBooking(st, booking);
    assert st'.bookings - {key} == st.bookings;
  }

  /** The same for searches. */
  lemma AddSearchRoundTrip(st: Store, search: SearchData)
    ensures var (st', key) := AddSearch(st, search);
            GetSearch(st', key) == Ok(search)
            && DeleteSearch(st', key) == Ok(st)
  {
    var (st', key) := AddSearch(st, search);
    assert st'.searches - {key} == st.searches;
  }

  /** A key in use keeps its value while another key is added or updated. */
  lemma OtherKeysUntouched(st: Store, key: Key, other: Key, search: SearchData, booking: BookingData)
    requires key != other
    ensures UpdateSearch(st, key, search).Ok? ==>
              GetSearch(UpdateSearch(st, key, search).value, other) == GetSearch(st, other)
    ensures UpdateBooking(st, key, booking).Ok? ==>
              GetBooking(UpdateBooking(st, key, booking).value, other) == GetBooking(st, other)
    ensures GetBooking(AddSearch(st, search).0, other) == GetBooking(st, other)
    ensures GetSearch(AddBooking(st, booking).0, other) == GetSearch(st, other)
  {
  }
}
