/** The single entity of the food inventory: a food item, its fixed category
    enumeration, and the small value types (nullable values, dates) that the
    screens pass around. */
module FoodData {

  /** Kotlin's nullable `T?`: `None` stands for `null`. */
  datatype Option<+T> = None | Some(value: T) {

    /** Kotlin's elvis operator `this ?: other` between two nullable values. */
    function OrElse(other: Option<T>): (r: Option<T>)
      ensures Some? ==> r == this
      ensures None? ==> r == other
    {
      match this
      case Some(_) => this
      case None => other
    }

    /** Kotlin's safe call `this?.let(f)`. */
    function Map<U>(f: T -> U): (r: Option<U>)
      ensures r.Some? <==> Some?
      ensures Some? ==> r.value == f(value)
    {
      match this
      case Some(v) => Some(f(v))
      case None => None
    }

    /** Kotlin's elvis operator `this ?: default` with a non-null default. */
    function GetOr(default: T): (r: T)
      ensures Some? ==> r == value
      ensures None? ==> r == default
    {
      match this
      case Some(v) => v
      case None => default
    }
  }

  /** The fixed food categories, in declaration order. */
  datatype FoodType = Produce | Dairy | Meats | Pantry | Other

  /** The `displayName` each category carries. */
  function DisplayName(t: FoodType): string
  {
    match t
    case Produce => "Produce"
    case Dairy => "Dairy"
    case Meats => "Meats"
    case Pantry => "Pantry"
    case Other => "Other"
  }

  /** A calendar date (`java.time.LocalDate`), compared field by field.
      The calendar rules behind it are not part of this model. */
  datatype Date = Date(year: int, month: int, day: int)

  /** One inventory record. `imageUrl` and `imagePath` are nullable. */
  datatype FoodItem = FoodItem(
    id: string,
    name: string,
    foodType: FoodType,
    quantity: string,
    container: string,
    creationDate: Date,
    expirationDate: Date,
    imageUrl: Option<string>,
    imagePath: Option<string>
  )

  /** Kotlin's `isNullOrEmpty` on a nullable string. */
  predicate IsNullOrEmpty(s: Option<string>)
  {
    s.None? || s.value == ""
  }

  /** The list's ids are pairwise distinct (the table's primary key). */
  ghost predicate UniqueIds(items: seq<FoodItem>)
  {
    forall i, j :: 0 <= i < |items| && 0 <= j < |items| && items[i].id == items[j].id ==> i == j
  }

  /** `items.find { it.id == itemId }`: the first item whose id equals the
      nullable `itemId`; a null id never matches, since ids are non-null. */
  function FindById(items: seq<FoodItem>, itemId: Option<string>): (r: Option<FoodItem>)
    ensures r.None? <==> forall i :: 0 <= i < |items| ==> itemId != Some(items[i].id)
    ensures r.Some? ==> itemId == Some(r.value.id)
    ensures r.Some? ==> exists k :: 0 <= k < |items| && items[k] == r.value &&
                           forall j :: 0 <= j < k ==> itemId != Some(items[j].id)
  {
    if |items| == 0 then None
    else if itemId == Some(items[0].id) then Some(items[0])
    else
      var r := FindById(items[1..], itemId);
      assert forall i :: 1 <= i < |items| ==> items[i] == items[1..][i - 1];
      r
  }

  /** With unique ids, looking up the id of the item at position `k` finds
      exactly that item. */
  lemma FindOwnId(items: seq<FoodItem>, k: int)
    requires UniqueIds(items)
    requires 0 <= k < |items|
    ensures FindById(items, Some(items[k].id)) == Some(items[k])
  {
    var r := FindById(items, Some(items[k].id));
    var m :| 0 <= m < |items| && items[m] == r.value &&
             forall j :: 0 <= j < m ==> Some(items[k].id) != Some(items[j].id);
    assert items[m].id == items[k].id;
  }
}
