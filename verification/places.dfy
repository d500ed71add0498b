/** The shapes of the Google Places records the bot reads (`gcp.maps.places`),
    reduced to the fields the modelled logic inspects, plus the time values the
    Duckling parser hands back (`Instant` / `Interval` of `utils/_parsing.py`). */
module Places {
  import opened Wrappers
  import opened Calendar

  datatype PriceLevel = Unspecified | Free | Inexpensive | Moderate | Expensive | VeryExpensive

  /** One opening period of a weekday; `None` on either side means the place
      opened the day before or closes the day after. */
  datatype Period = Period(start: Option<TimeOfDay>, end: Option<TimeOfDay>)

  /** Opening periods indexed by `weekday()`. */
  type WeeklyHours = seq<seq<Period>>

  datatype Place = Place(
    displayName: Option<string>,
    shortAddress: Option<string>,
    priceLevel: Option<PriceLevel>,
    reservable: Option<bool>,
    goodForChildren: Option<bool>,
    menuForChildren: Option<bool>,
    openingHours: Option<WeeklyHours>)

  /** Duckling's grain of a parsed time. */
  datatype Grain = Second | Minute | Hour | Day | Week | Month | Year

  datatype Instant = Instant(value: DateTime, grain: Grain)

  datatype Time =
    | At(instant: Instant)
    | Between(start: Instant, end: Option<Instant>)

  /** The grains fine enough to book a table at. */
  predicate IsFineGrain(g: Grain) {
    g == Second || g == Minute || g == Hour
  }
}
