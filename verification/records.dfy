/** The search and booking records of `actions/records`. */
module Records {
  import opened Wrappers
  import opened Calendar
  import opened Places

  datatype Activity = Eat | Drink
  datatype PriceRange = AnyPrice | InexpensiveRange | ModerateRange | ExpensiveRange
  datatype Quality = AnyQuality | ModerateQuality | ExcellentQuality
  datatype RankBy = Relevance | Distance

  datatype SearchParameters = SearchParameters(
    location: Place,
    placeType: Option<string>,
    placeName: Option<string>,
    openNow: Option<bool>,
    mealType: Option<string>,
    cuisineType: Option<string>,
    activity: Option<Activity>,
    priceRange: Option<PriceRange>,
    quality: Option<Quality>,
    rankBy: RankBy)

  datatype SearchData = SearchData(parameters: SearchParameters, results: Option<seq<Place>>)

  datatype BookingParameters = BookingParameters(
    place: Place,
    date: DateTime,
    numPeople: int,
    author: string)

  datatype BookingData = BookingData(parameters: BookingParameters)

  /** `SearchParameters(location)`: only the location is given. */
  function NewSearchParameters(location: Place): (p: SearchParameters)
    ensures p.location == location
    ensures p.rankBy == Relevance
    ensures p.placeType.None? && p.placeName.None? && p.openNow.None? && p.mealType.None?
    ensures p.cuisineType.None? && p.activity.None? && p.priceRange.None? && p.quality.None?
  {
    SearchParameters(location, None, None, None, None, None, None, None, None, Relevance)
  }

  /** The Places API price filter for the chosen price range; None means no filter. */
  function GetPriceLevels(range: Option<PriceRange>): (r: Option<seq<PriceLevel>>)
    ensures r.None? <==> (range.None? || range.value == AnyPrice)
    ensures range == Some(ExpensiveRange) ==> r == Some([Expensive, VeryExpensive])
    ensures range == Some(ModerateRange) ==> r == Some([Moderate])
    ensures range == Some(InexpensiveRange) ==> r == Some([Inexpensive])
  {
    match range
    case None => None
    case Some(AnyPrice) => None
    case Some(ExpensiveRange) => Some([Expensive, VeryExpensive])
    case Some(ModerateRange) => Some([Moderate])
    case Some(InexpensiveRange) => Some([Inexpensive])
  }

  /** The minimum rating, in tenths of a star (4.5 is 45); None means no filter. */
  function GetMinRating(quality: Option<Quality>): (r: Option<nat>)
    ensures r.None? <==> (quality.None? || quality.value == AnyQuality)
    ensures quality == Some(ExcellentQuality) ==> r == Some(45)
    ensures quality == Some(ModerateQuality) ==> r == Some(35)
  {
    match quality
    case None => None
    case Some(AnyQuality) => None
    case Some(ExcellentQuality) => Some(45)
    case Some(ModerateQuality) => Some(35)
  }

  /** Each price range asks for levels the ranges below it do not, and the
      excellent threshold is stricter than the moderate one. */
  lemma FiltersAreOrdered()
    ensures GetMinRating(Some(ExcellentQuality)).value > GetMinRating(Some(ModerateQuality)).value
    ensures forall l :: l in GetPriceLevels(Some(ExpensiveRange)).value ==>
              l !in GetPriceLevels(Some(ModerateRange)).value
              && l !in GetPriceLevels(Some(InexpensiveRange)).value
    ensures GetPriceLevels(Some(ModerateRange)).value != GetPriceLevels(Some(InexpensiveRange)).value
  {
  }
}
