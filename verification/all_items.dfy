/** The "All Items" list: the three-band expiration urgency rule, and what the
    screen renders for an empty list and for each item of a non-empty one. */
module AllItems {
  import opened FoodData
  import opened Palette

  /** The urgency bands of `getExpirationColor`, most urgent first. */
  datatype Band = Urgent | Soon | Later

  /** The band of an item whose `daysUntilExpiration()` is `days`; negative
      values fall in the most urgent band. That function returns the day part
      of the period until the expiration date, not the total number of days,
      so `days` is the value it returns and nothing more. */
  function Classify(days: int): (b: Band)
    ensures b == Urgent <==> days < 2
    ensures b == Soon <==> 2 <= days < 10
    ensures b == Later <==> days >= 10
  {
    if days < 2 then Urgent else if days < 10 then Soon else Later
  }

  /** The colour of each band: red, amber, and no colour at all. */
  function BandColor(b: Band): Color
  {
    match b
    case Urgent => Red
    case Soon => Amber
    case Later => Transparent
  }

  /** `getExpirationColor`, given the item's `daysUntilExpiration()`. */
  function ExpirationColor(days: int): (c: Color)
    ensures c == Red <==> days < 2
    ensures c == Amber <==> 2 <= days < 10
    ensures c == Transparent <==> days >= 10
  {
    BandColor(Classify(days))
  }

  /** A rank for comparing bands: higher is more urgent. */
  function Urgency(b: Band): nat
  {
    match b
    case Urgent => 2
    case Soon => 1
    case Later => 0
  }

  /** A larger `daysUntilExpiration()` value never makes an item more urgent. */
  lemma ClassifyMonotone(d1: int, d2: int)
    requires d1 <= d2
    ensures Urgency(Classify(d2)) <= Urgency(Classify(d1))
  {
  }

  /** `isExpiringSoon`: the `daysUntilExpiration()` value is 0 or 1. */
  predicate IsExpiringSoon(days: int)
  {
    days < 2 && days >= 0
  }

  /** Every item expiring soon is shown red; the red items that are not
      "expiring soon" are exactly those with a negative value. */
  lemma ExpiringSoonIsRed(days: int)
    ensures IsExpiringSoon(days) ==> ExpirationColor(days) == Red
    ensures ExpirationColor(days) == Red && !IsExpiringSoon(days) <==> days < 0
  {
  }

  /** The leading picture of a row. */
  datatype Thumbnail = NoImageIcon | Photo(path: string)

  /** The row's background: the theme's surface variant, or the band colour
      (drawn at 20% opacity, which this model does not track). */
  datatype Background = SurfaceVariant | Tinted(color: Color)

  /** One rendered row: picture, name, "type • quantity", expiration date in
      the given colour, background, and the route a click navigates to. */
  datatype Row = Row(
    thumbnail: Thumbnail,
    title: string,
    subtitle: string,
    expires: Date,
    expiryTextColor: Color,
    background: Background,
    route: string
  )

  /** The screen's content: a placeholder message, or the rows of the list. */
  datatype Screen = Placeholder(message: string) | ItemList(rows: seq<Row>)

  const DetailsRoutePrefix: string := "food_details/"

  /** The route of an item's detail screen. */
  function DetailsRoute(id: string): (r: string)
    ensures |r| == |DetailsRoutePrefix| + |id|
    ensures r[..|DetailsRoutePrefix|] == DetailsRoutePrefix && r[|DetailsRoutePrefix|..] == id
  {
    DetailsRoutePrefix + id
  }

  /** The `itemId` argument the navigation graph's `food_details/{itemId}`
      destination extracts from a route; `None` when the route is another one. */
  function RouteArgument(route: string): (r: Option<string>)
    ensures r.Some? ==> route == DetailsRoutePrefix + r.value
  {
    if |route| >= |DetailsRoutePrefix| && route[..|DetailsRoutePrefix|] == DetailsRoutePrefix then
      assert route == route[..|DetailsRoutePrefix|] + route[|DetailsRoutePrefix|..];
      Some(route[|DetailsRoutePrefix|..])
    else
      None
  }

  /** The detail route hands the same id back. */
  lemma RouteRoundTrip(id: string)
    ensures RouteArgument(DetailsRoute(id)) == Some(id)
  {
  }

  /** The row of one item whose `daysUntilExpiration()` value is `days`. */
  function RowFor(item: FoodItem, days: int): (r: Row)
    ensures r.thumbnail.NoImageIcon? <==> IsNullOrEmpty(item.imagePath)
    ensures r.thumbnail.Photo? ==> item.imagePath == Some(r.thumbnail.path)
    ensures r.title == item.name
    ensures |r.subtitle| == |DisplayName(item.foodType)| + 3 + |item.quantity|
    ensures r.subtitle[..|DisplayName(item.foodType)|] == DisplayName(item.foodType)
    ensures r.subtitle[|r.subtitle| - |item.quantity|..] == item.quantity
    ensures r.expires == item.expirationDate
    ensures r.expiryTextColor == White <==> days >= 10
    ensures days < 10 ==> r.expiryTextColor == ExpirationColor(days)
    ensures !IsInvisible(r.expiryTextColor)
    ensures r.background.SurfaceVariant? <==> days >= 10
    ensures r.background.Tinted? ==> r.background.color == ExpirationColor(days)
    ensures RouteArgument(r.route) == Some(item.id)
  {
    var color := ExpirationColor(days);
    Row(
      thumbnail := if IsNullOrEmpty(item.imagePath) then NoImageIcon else Photo(item.imagePath.value),
      title := item.name,
      subtitle := DisplayName(item.foodType) + " \U{2022} " + item.quantity,
      expires := item.expirationDate,
      expiryTextColor := if color == Transparent then White else color,
      background := if color == Transparent then SurfaceVariant else Tinted(color),
      route := DetailsRoute(item.id))
  }

  /** The rows of the lazy column, one per item, in list order.
      `daysLeft` stands for `daysUntilExpiration()`, which reads the clock. */
  function Rows(items: seq<FoodItem>, daysLeft: FoodItem -> int): (rs: seq<Row>)
    ensures |rs| == |items|
    ensures forall i :: 0 <= i < |items| ==> rs[i] == RowFor(items[i], daysLeft(items[i]))
  {
    if |items| == 0 then []
    else [RowFor(items[0], daysLeft(items[0]))] + Rows(items[1..], daysLeft)
  }

  /** The list screen's body: the placeholder for an empty list, otherwise
      the rows. */
  function Render(items: seq<FoodItem>, daysLeft: FoodItem -> int): (s: Screen)
    ensures s.Placeholder? <==> |items| == 0
    ensures s.Placeholder? ==> s.message == "No items yet"
    ensures s.ItemList? ==> |s.rows| == |items|
    ensures s.ItemList? ==> forall i :: 0 <= i < |items| ==> s.rows[i] == RowFor(items[i], daysLeft(items[i]))
  {
    if |items| == 0 then Placeholder("No items yet") else ItemList(Rows(items, daysLeft))
  }

  /** Clicking the row of an item opens the detail screen of that very item:
      the route's argument, looked up the way the detail screen looks it up,
      finds it again (ids being unique). */
  lemma ClickOpensItsDetails(items: seq<FoodItem>, daysLeft: FoodItem -> int, i: int)
    requires UniqueIds(items)
    requires 0 <= i < |items|
    ensures Render(items, daysLeft).ItemList?
    ensures FindById(items, RouteArgument(Render(items, daysLeft).rows[i].route)) == Some(items[i])
  {
    FindOwnId(items, i);
  }
}
