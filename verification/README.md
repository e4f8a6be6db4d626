# Food inventory: form, calendar grid and list rules

This project models the pure logic inside two screens of the food inventory app. It also proves properties of that model.

- The **add/edit item form** (`AddItemScreen`):
  - how its fields start from the edited item or from defaults;
  - how each input event changes one field;
  - which image the preview shows;
  - how the save button turns the form into an add, an update or nothing.
- The **calendar picker** (`SimpleCalendarPicker`): month navigation, the Sunday-first weekday header, and the 6 x 7 day grid. The grid is filled by a nested loop with a running day counter.
- The **All Items list** (`AllItemsScreen`):
  - the three-band expiration colour rule `getExpirationColor`;
  - the placeholder for an empty list;
  - the row drawn for each item;
  - the detail route a row click navigates to.

Modules:

- `FoodData` (`food_data.dfy`): the `FoodItem` record and the `FoodType` enumeration. Also nullable values as `Option` and dates as an opaque `Date`. Holds the lookup `items.find { it.id == itemId }`.
- `Palette` (`palette.dfy`): the ARGB colour constants the screens compare.
- `AddItem` (`add_item.dfy`): the form state, its events, the preview and the save rule.
- `CalendarGrid` (`calendar_grid.dfy`): `YearMonth`, navigation, weekdays, and the grid method `LayoutMonth` with its reference layout `CellAt`.
- `AllItems` (`all_items.dfy`): bands, colours, rows, routes and the rendered screen.

Inputs that come from libraries or from files outside this model are parameters:

- `daysInMonth` is `lengthOfMonth()`, in 28..31.
- The first day's `dayOfWeek.value` is an ISO weekday, in 1..7.
- `daysUntilExpiration()` reads the clock. It is a function parameter `daysLeft: FoodItem -> int`.
- `UUID.randomUUID()` is an opaque `freshId`.
- `LocalDate.now()` is an opaque `today`.

Saving builds the `FoodItem` without an `imageUrl` argument, so that field takes its default, null. The model keeps this behaviour: saving an unchanged edit writes the item back with `imageUrl` cleared (`AddItem.SaveUnchangedEdit`).

The blank-cell test of the grid is read the way Kotlin parses it: `(week == 0 && day < dayOfWeek) || dayCounter > daysInMonth`.

## Model

| member | source | states |
|---|---|---|
| `FoodData.FindById` | Application/android/app/src/main/kotlin/com/example/foodinventory/ui/screens/AddItemScreen.kt:49 | The item the screen edits. The result is null exactly when no item has the given id, and a null id never matches. Otherwise the result is an item with that id, and no earlier item has it. |
| `FoodData.FindOwnId` | Application/android/app/src/main/kotlin/com/example/foodinventory/ui/screens/AddItemScreen.kt:49 | When ids are unique, looking up the id of the item at position k returns that item. |
| `AddItem.InitialForm` | Application/android/app/src/main/kotlin/com/example/foodinventory/ui/screens/AddItemScreen.kt:51-57 | With an item, the name, quantity, container, type and date fields start from its values. Without one they start as empty, empty, empty, PRODUCE and today. No photo is taken at first. |
| `AddItem.Apply` | Application/android/app/src/main/kotlin/com/example/foodinventory/ui/screens/AddItemScreen.kt:119-196 | Each input event replaces exactly its own field: a text edit, a type choice, a calendar click, or a photo uri. All other fields keep their values. |
| `AddItem.ApplyAllName` | Application/android/app/src/main/kotlin/com/example/foodinventory/ui/screens/AddItemScreen.kt:119-124 | After a sequence of events, the name field holds the text of the last name edit. With no name edit, it holds its starting value. |
| `AddItem.Save` | Application/android/app/src/main/kotlin/com/example/foodinventory/ui/screens/AddItemScreen.kt:207-225 | An empty name means no write and no navigation. Otherwise there is exactly one write, followed by popping the screen. The write is an add exactly when there is no item and an update exactly when there is one. Name, type, quantity, container and date come from the form. An edit keeps id and creation date; an add takes the fresh id and today. The captured photo wins over the old image path. `imageUrl` is null. The record is built inside `Save` itself. |
| `AddItem.SaveAfterEdits` | Application/android/app/src/main/kotlin/com/example/foodinventory/ui/screens/AddItemScreen.kt:207-208 | After any sequence of edits, save does nothing exactly when the last name edit left the field empty. |
| `AddItem.Preview` | Application/android/app/src/main/kotlin/com/example/foodinventory/ui/screens/AddItemScreen.kt:106-108 | The preview is shown exactly when there is a captured photo or the edited item has an image path. It shows the captured photo when there is one, and the item's path otherwise. |
| `AddItem.PreviewMatchesSavedImage` | Application/android/app/src/main/kotlin/com/example/foodinventory/ui/screens/AddItemScreen.kt:106-108 | `Preview` and the path `Save` stores (line 217) agree: the preview is shown exactly when a save would store an image path, and it shows that same path. The captured photo takes precedence in both. |
| `AddItem.Title` | Application/android/app/src/main/kotlin/com/example/foodinventory/ui/screens/AddItemScreen.kt:89 | The top bar says "Add Item" exactly when no item is edited, and "Edit Item" otherwise. |
| `AddItem.SaveLabel` | Application/android/app/src/main/kotlin/com/example/foodinventory/ui/screens/AddItemScreen.kt:231 | The save button says "Save Changes" exactly when an item is edited, and "Add Item" otherwise. |
| `AddItem.LabelsMatchWrite` | Application/android/app/src/main/kotlin/com/example/foodinventory/ui/screens/AddItemScreen.kt:219-231 | The title (line 89) says "Add Item" exactly when save adds. The button says "Save Changes" exactly when save updates. |
| `AddItem.SaveUnchangedEdit` | Application/android/app/src/main/kotlin/com/example/foodinventory/ui/screens/AddItemScreen.kt:207-218 | Opening an item and saving at once writes back the same record, except that `imageUrl` is cleared. If the item's name is empty, nothing happens. |
| `AddItem.EditsKeepIdentity` | Application/android/app/src/main/kotlin/com/example/foodinventory/ui/screens/AddItemScreen.kt:209-215 | Whatever edits were made to an opened item, saving is an update that keeps the item's id and creation date. |
| `CalendarGrid.NextMonth` | Application/android/app/src/main/kotlin/com/example/foodinventory/ui/screens/AddItemScreen.kt:271 | The forward arrow gives a valid month whose month index is one larger. |
| `CalendarGrid.PrevMonth` | Application/android/app/src/main/kotlin/com/example/foodinventory/ui/screens/AddItemScreen.kt:260 | The backward arrow gives a valid month whose month index is one smaller. |
| `CalendarGrid.NavigationRoundTrip` | Application/android/app/src/main/kotlin/com/example/foodinventory/ui/screens/AddItemScreen.kt:260-271 | Forward then back, or back then forward, returns to the same month. |
| `CalendarGrid.HeaderLabelsName` | Application/android/app/src/main/kotlin/com/example/foodinventory/ui/screens/AddItemScreen.kt:283 | Each header letter is the initial of its column's weekday. The columns run from Sunday to Saturday. |
| `CalendarGrid.FirstColumn` | Application/android/app/src/main/kotlin/com/example/foodinventory/ui/screens/AddItemScreen.kt:295 | `dayOfWeek % 7` is a column from 0 to 6, and that column's header weekday is the first day's weekday. Sunday (7) goes to column 0 and Monday (1) to column 1. |
| `CalendarGrid.LayoutMonth` | Application/android/app/src/main/kotlin/com/example/foodinventory/ui/screens/AddItemScreen.kt:294-331 | The loop makes 42 cells, each equal to the reference layout. The day numbers of the cells, in order, are exactly 1..daysInMonth, so every day appears once and in increasing order. The counter ends at daysInMonth + 1, so 42 cells are enough. |
| `CalendarGrid.DayPosition` | Application/android/app/src/main/kotlin/com/example/foodinventory/ui/screens/AddItemScreen.kt:307-322 | Day d sits at cell offset + d - 1 and shows the number d. It carries its own date. Its surface is dark grey, and its text white, exactly when that date is the selected one. |
| `CalendarGrid.BlankCells` | Application/android/app/src/main/kotlin/com/example/foodinventory/ui/screens/AddItemScreen.kt:307-308 | A cell is blank exactly when it comes before the first day or after the last one. |
| `CalendarGrid.DayUnderItsWeekday` | Application/android/app/src/main/kotlin/com/example/foodinventory/ui/screens/AddItemScreen.kt:294-299 | Every day of the month lands in the column of its own weekday. |
| `CalendarGrid.DayCellColors` | Application/android/app/src/main/kotlin/com/example/foodinventory/ui/screens/AddItemScreen.kt:317-318 | A day cell is dark grey behind white text exactly when its date is the selected date. Otherwise it is transparent behind black text. The loop in `LayoutMonth` computes these colours, and its cells equal `CellAt`. |
| `CalendarGrid.AtMostOneSelected` | Application/android/app/src/main/kotlin/com/example/foodinventory/ui/screens/AddItemScreen.kt:317 | Two cells with the dark grey surface are the same cell. |
| `CalendarGrid.ClickHighlights` | Application/android/app/src/main/kotlin/com/example/foodinventory/ui/screens/AddItemScreen.kt:316-317 | After a click on a day cell selects its date, that cell has the dark grey surface and no other cell has it. |
| `AllItems.Classify` | Application/android/app/src/main/kotlin/com/example/foodinventory/ui/screens/AllItemsScreen.kt:164-168 | Here days is the value `daysUntilExpiration` returns. The most urgent band applies exactly when days < 2, which includes negative values. The middle band applies exactly when 2 <= days < 10, and the last band exactly when days >= 10. |
| `AllItems.ExpirationColor` | Application/android/app/src/main/kotlin/com/example/foodinventory/ui/screens/AllItemsScreen.kt:162-169 | The colour is red 0xFFE57373 iff days < 2, amber 0xFFFFB74D iff 2 <= days < 10, and transparent iff days >= 10. |
| `AllItems.ClassifyMonotone` | Application/android/app/src/main/kotlin/com/example/foodinventory/ui/screens/AllItemsScreen.kt:164-168 | A larger value returned by `daysUntilExpiration` never puts an item in a more urgent band. |
| `AllItems.ExpiringSoonIsRed` | Application/android/app/src/main/kotlin/com/example/foodinventory/ui/screens/AllItemsScreen.kt:165 | Every item that is expiring soon is red. Expiring soon is `isExpiringSoon` of `FoodItem.kt`: 0 <= days < 2. The red items that are not expiring soon are exactly those with a negative value. The lemma uses `IsExpiringSoon`, which models `isExpiringSoon`. |
| `AllItems.DetailsRoute` | Application/android/app/src/main/kotlin/com/example/foodinventory/ui/screens/AllItemsScreen.kt:111 | The route is "food_details/" followed by the item's id. |
| `AllItems.RouteArgument` | Application/android/app/src/main/kotlin/com/example/foodinventory/MainActivity.kt:53 | A route that the `food_details/{itemId}` destination matches is the prefix followed by the extracted id. |
| `AllItems.RouteRoundTrip` | Application/android/app/src/main/kotlin/com/example/foodinventory/ui/screens/AllItemsScreen.kt:111 | The detail route of an id hands that same id back to the detail destination. |
| `AllItems.RowFor` | Application/android/app/src/main/kotlin/com/example/foodinventory/ui/screens/AllItemsScreen.kt:102-153 | A row shows the placeholder icon iff the image path is null or empty, and otherwise shows that path. It shows the item's name and expiration date. The subtitle starts with the type's display name, ends with the quantity, and has a 3-character separator between them. The expiry text is white iff the band is transparent, takes the band colour otherwise, and is never invisible. The background is the surface variant iff the band is transparent. A click routes to the item's own id. |
| `AllItems.Rows` | Application/android/app/src/main/kotlin/com/example/foodinventory/ui/screens/AllItemsScreen.kt:101 | There is one row per item, in list order. Row i is the row of item i. |
| `AllItems.Render` | Application/android/app/src/main/kotlin/com/example/foodinventory/ui/screens/AllItemsScreen.kt:81-101 | An empty list yields only the "No items yet" placeholder. A non-empty list yields one row per item, in order. |
| `AllItems.ClickOpensItsDetails` | Application/android/app/src/main/kotlin/com/example/foodinventory/ui/screens/AllItemsScreen.kt:111 | When ids are unique, clicking row i and looking its route's id up in the list finds item i. |

## Left out

- Compose layout, modifiers, sizes and padding are rendering only. The 20% alpha of a tinted row background is a float and is not modelled either.
- The camera, the permission request and `FileProvider` are platform calls (`AddItemScreen.kt` 58-84, 189-198, 335-348). The uri the camera is pointed at is an input event (`PhotoUriCreated`). The model does not look at whether the picture was actually taken, and neither does the source. The uri is set before the camera starts. So after a cancelled capture, saving replaces the old `imagePath` with a path to a file that was never written.
- The open/closed state of the type menu (`showFoodTypeMenu`) only controls what is drawn. Choosing a type is modelled as `FoodTypeChosen`.
- `java.time` is not part of this model: `YearMonth.now`, `lengthOfMonth`, `atDay(1).dayOfWeek`, `LocalDate.now`, and the ISO formatting of dates in the date field and the "Expires:" text. Dates are opaque values compared field by field. `YearMonth.atDay` builds such a value without checking it.
- `UUID.randomUUID` is an opaque parameter. Ids are assumed unique, as the table's primary key makes them (`UniqueIds`).
- `daysUntilExpiration` is an integer-valued parameter. `FoodItem.kt` computes it as `LocalDate.now().until(expirationDate).days`. That is the day part of a years/months/days period, not the total number of days. For example, an item 32 days away gives 1 and is red, while an item 9 days away is amber. Computing periods needs the calendar rules, which are not part of this model.
- AllItems.ClassifyMonotone: monotone in the integer `daysUntilExpiration` returns, not in the real distance to the expiration date. As the line above shows, the two differ.
- AllItems.RouteArgument: models route matching as a prefix strip only. Navigation's matching would refuse an id containing `/` and an empty id, and it treats `?`, `#` and `%` specially. This model does none of that. It makes no difference for UUID ids, which contain only hex digits and `-`.
- Recomposition timing is not modelled. `remember` computes the form's first state once, from the item found at first composition. The item list starts empty until the store emits. `AddItem.Save` therefore takes the edited item as its own argument, separate from the form it was initialised from.
- The view model, the repository, the Room database and its migration are asynchronous pass-through code with no logic of their own. The bottom navigation tabs, the settings screen and the theme are navigation wiring and static layout.
