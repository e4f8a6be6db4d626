/** The add/edit form: its initial state, the edits that change it, the photo
    preview, and the save rule that turns form state plus the item being
    edited (if any) into an add, an update, or nothing. */
module AddItem {
  import opened FoodData

  /** The remembered state of the form. `capturedImage` is the uri of the
      photo file the camera was pointed at, as a string. */
  datatype Form = Form(
    name: string,
    quantity: string,
    container: string,
    foodType: FoodType,
    expirationDate: Date,
    capturedImage: Option<string>
  )

  /** The writes the save button can ask the view model for. */
  datatype Write = Add(item: FoodItem) | Update(item: FoodItem)

  /** What pressing save does: an optional write and whether the screen pops
      itself off the back stack. */
  datatype SaveEffect = SaveEffect(write: Option<Write>, popBack: bool)

  /** The form's first state: the edited item's values, or the defaults
      (empty texts, produce, today) when there is no item. No photo has been
      taken yet. */
  function InitialForm(existing: Option<FoodItem>, today: Date): (f: Form)
    ensures f.capturedImage.None?
    ensures existing.None? ==> f == Form("", "", "", Produce, today, None)
    ensures existing.Some? ==>
              && f.name == existing.value.name
              && f.quantity == existing.value.quantity
              && f.container == existing.value.container
              && f.foodType == existing.value.foodType
              && f.expirationDate == existing.value.expirationDate
  {
    Form(
      existing.Map((x: FoodItem) => x.name).GetOr(""),
      existing.Map((x: FoodItem) => x.quantity).GetOr(""),
      existing.Map((x: FoodItem) => x.container).GetOr(""),
      existing.Map((x: FoodItem) => x.foodType).GetOr(Produce),
      existing.Map((x: FoodItem) => x.expirationDate).GetOr(today),
      None)
  }

  /** The form's input events: typing into a text field, choosing a type in
      the menu, clicking a day of the calendar, and the camera handing over
      the uri of the photo file it will write. */
  datatype FormEvent =
    | NameChanged(text: string)
    | QuantityChanged(text: string)
    | ContainerChanged(text: string)
    | FoodTypeChosen(foodType: FoodType)
    | DateSelected(date: Date)
    | PhotoUriCreated(uri: string)

  /** Each event replaces exactly one field of the form. */
  function Apply(f: Form, e: FormEvent): (g: Form)
    ensures g.name == (if e.NameChanged? then e.text else f.name)
    ensures g.quantity == (if e.QuantityChanged? then e.text else f.quantity)
    ensures g.container == (if e.ContainerChanged? then e.text else f.container)
    ensures g.foodType == (if e.FoodTypeChosen? then e.foodType else f.foodType)
    ensures g.expirationDate == (if e.DateSelected? then e.date else f.expirationDate)
    ensures g.capturedImage == (if e.PhotoUriCreated? then Some(e.uri) else f.capturedImage)
  {
    match e
    case NameChanged(s) => f.(name := s)
    case QuantityChanged(s) => f.(quantity := s)
    case ContainerChanged(s) => f.(container := s)
    case FoodTypeChosen(t) => f.(foodType := t)
    case DateSelected(d) => f.(expirationDate := d)
    case PhotoUriCreated(u) => f.(capturedImage := Some(u))
  }

  /** The image the preview shows: the new photo first, otherwise the edited
      item's stored path; `None` means the preview is not shown. */
  function Preview(f: Form, existing: Option<FoodItem>): (r: Option<string>)
    ensures r.Some? <==> f.capturedImage.Some? || (existing.Some? && existing.value.imagePath.Some?)
    ensures f.capturedImage.Some? ==> r == f.capturedImage
    ensures f.capturedImage.None? && existing.Some? ==> r == existing.value.imagePath
  {
    if (existing.Some? && existing.value.imagePath.Some?) || f.capturedImage.Some? then
      f.capturedImage.OrElse(existing.Map((x: FoodItem) => x.imagePath).GetOr(None))
    else
      None
  }

  /** Pressing save. `freshId` stands for the random UUID and `today` for the
      current date, both consulted only when a record is built. The record's
      constructor is given no `imageUrl`, so that field takes its default,
      null. */
  function Save(f: Form, existing: Option<FoodItem>, freshId: string, today: Date): (e: SaveEffect)
    ensures e.write.None? <==> f.name == ""
    ensures e.popBack <==> e.write.Some?
    ensures e.write.Some? ==> (e.write.value.Add? <==> existing.None?)
    ensures e.write.Some? ==>
              var r := e.write.value.item;
              && r.name == f.name
              && r.foodType == f.foodType
              && r.quantity == f.quantity
              && r.container == f.container
              && r.expirationDate == f.expirationDate
              && r.imageUrl.None?
    ensures e.write.Some? && existing.Some? ==>
              e.write.value.item.id == existing.value.id &&
              e.write.value.item.creationDate == existing.value.creationDate
    ensures e.write.Some? && existing.None? ==>
              e.write.value.item.id == freshId &&
              e.write.value.item.creationDate == today
    ensures e.write.Some? && f.capturedImage.Some? ==>
              e.write.value.item.imagePath == f.capturedImage
    ensures e.write.Some? && f.capturedImage.None? ==>
              e.write.value.item.imagePath == (if existing.Some? then existing.value.imagePath else None)
  {
    if |f.name| > 0 then
      var item := FoodItem(
        id := existing.Map((x: FoodItem) => x.id).GetOr(freshId),
        name := f.name,
        foodType := f.foodType,
        quantity := f.quantity,
        container := f.container,
        creationDate := existing.Map((x: FoodItem) => x.creationDate).GetOr(today),
        expirationDate := f.expirationDate,
        imageUrl := None,
        imagePath := f.capturedImage.OrElse(existing.Map((x: FoodItem) => x.imagePath).GetOr(None)));
      SaveEffect(Some(if existing.None? then Add(item) else Update(item)), true)
    else
      SaveEffect(None, false)
  }

  /** The top bar's title. */
  function Title(existing: Option<FoodItem>): (r: string)
    ensures r == "Add Item" <==> existing.None?
    ensures existing.Some? ==> r == "Edit Item"
  {
    if existing.None? then "Add Item" else "Edit Item"
  }

  /** The save button's label. */
  function SaveLabel(existing: Option<FoodItem>): (r: string)
    ensures r == "Save Changes" <==> existing.Some?
    ensures existing.None? ==> r == "Add Item"
  {
    if existing.None? then "Add Item" else "Save Changes"
  }

  /** The preview shows exactly the image a save would store. */
  lemma PreviewMatchesSavedImage(f: Form, existing: Option<FoodItem>, freshId: string, today: Date)
    requires f.name != ""
    ensures Save(f, existing, freshId, today).write.Some?
    ensures Preview(f, existing) == Save(f, existing, freshId, today).write.value.item.imagePath
  {
  }

  /** The title and the button say "add" exactly when save adds, and
      "edit"/"save changes" exactly when it updates. */
  lemma LabelsMatchWrite(f: Form, existing: Option<FoodItem>, freshId: string, today: Date)
    requires f.name != ""
    ensures Save(f, existing, freshId, today).write.value.Add? <==> Title(existing) == "Add Item"
    ensures Save(f, existing, freshId, today).write.value.Update? <==> SaveLabel(existing) == "Save Changes"
  {
  }

  /** Opening an item for editing and saving at once writes the item back
      unchanged, except that its `imageUrl` is cleared; an item with an
      empty name cannot be saved at all. */
  lemma SaveUnchangedEdit(x: FoodItem, freshId: string, today: Date)
    ensures x.name != "" ==>
              Save(InitialForm(Some(x), today), Some(x), freshId, today)
                == SaveEffect(Some(Update(x.(imageUrl := None))), true)
    ensures x.name == "" ==>
              Save(InitialForm(Some(x), today), Some(x), freshId, today) == SaveEffect(None, false)
  {
  }

  /** Whatever edits are made, the id and creation date an update writes are
      those of the item being edited. */
  lemma EditsKeepIdentity(x: FoodItem, es: seq<FormEvent>, freshId: string, today: Date)
    requires ApplyAll(InitialForm(Some(x), today), es).name != ""
    ensures Save(ApplyAll(InitialForm(Some(x), today), es), Some(x), freshId, today).write.value.Update?
    ensures Save(ApplyAll(InitialForm(Some(x), today), es), Some(x), freshId, today).write.value.item.id == x.id
    ensures Save(ApplyAll(InitialForm(Some(x), today), es), Some(x), freshId, today).write.value.item.creationDate
              == x.creationDate
  {
  }

  /** The form after a sequence of events, applied in order. */
  function ApplyAll(f: Form, es: seq<FormEvent>): Form
    decreases |es|
  {
    if |es| == 0 then f else ApplyAll(Apply(f, es[0]), es[1..])
  }

  /** The name field holds the text of the last name edit, or its first
      value when there was none. */
  lemma {:induction false} ApplyAllName(f: Form, es: seq<FormEvent>)
    ensures ApplyAll(f, es).name == LastName(f.name, es)
    decreases |es|
  {
    if |es| > 0 {
      ApplyAllName(Apply(f, es[0]), es[1..]);
      LastNameCons(f.name, es);
    }
  }

  /** The text of the last `NameChanged` in `es`, or `name` if there is none. */
  function LastName(name: string, es: seq<FormEvent>): string
    decreases |es|
  {
    if |es| == 0 then name
    else if es[|es| - 1].NameChanged? then es[|es| - 1].text
    else LastName(name, es[..|es| - 1])
  }

  lemma {:induction false} LastNameCons(name: string, es: seq<FormEvent>)
    requires |es| > 0
    ensures LastName(name, es) == LastName(if es[0].NameChanged? then es[0].text else name, es[1..])
    decreases |es|
  {
    if |es| > 1 && !es[|es| - 1].NameChanged? {
      assert es[..|es| - 1][1..] == es[1..][..|es[1..]| - 1];
      LastNameCons(name, es[..|es| - 1]);
    }
  }

  /** Save refuses exactly when the last name edit left the field empty
      (or, with no name edit, the initial name is empty). */
  lemma SaveAfterEdits(f: Form, es: seq<FormEvent>, existing: Option<FoodItem>, freshId: string, today: Date)
    ensures Save(ApplyAll(f, es), existing, freshId, today).write.None? <==> LastName(f.name, es) == ""
  {
    ApplyAllName(f, es);
  }
}
