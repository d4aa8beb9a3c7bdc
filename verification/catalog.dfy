/** The bookstore page as state: the list of book cards, the edit modal, the
    two collapsible forms, and the target recorded on the edit form. Every
    handler is a pure transition; what the network answered is a parameter. */
module Catalog {
  import opened Optional
  import opened Seqs
  import opened Text
  import opened Stock
  import opened Chrome

  /** A backend identifier as it sits in a `data-id` attribute. */
  type Id = string

  /** A price. Cards show `formatPrice` of it, which is a function of the
      price alone, so the card keeps the price itself. */
  type Price = real

  /** A book record: `id` is `None` before the server has assigned one. */
  datatype Book = Book(id: Option<Id>, title: string, author: string,
                       price: Price, inventory: int, imageUrl: string)

  /** One list item. `node` is the element's identity; `id` is its `data-id`
      attribute (`None` reads "undefined"); `recordId` is the id of the
      record the item was rendered from, which the Edit and Delete click
      handlers captured and which never changes. */
  datatype Card = Card(node: nat, id: Option<Id>, recordId: Option<Id>,
                       title: string, author: string, price: Price,
                       stock: StockLabel, imageUrl: string)

  datatype Page = Page(books: seq<Card>, nextNode: nat, modalOpen: bool,
                       bookForm: Pane, storeForm: Pane, editTarget: Option<Id>)

  /** The create and edit forms: five text fields, plus the number the
      browser read from the price field and the integer `parseInt` read from
      the inventory field. */
  datatype FormInput = FormInput(title: string, author: string,
                                 priceField: string, inventoryField: string,
                                 imageUrl: string, price: Price, inventory: int)

  /** How a POST ended: a created record with its id, a not-ok status, or a
      rejected fetch. */
  datatype PostOutcome = Created(id: Id) | PostNotOk | PostFailed

  /** How a PATCH ended: an ok status with the updated record, a not-ok
      status, or a rejected fetch (which nothing catches). */
  datatype PatchOutcome = Patched(book: Book) | PatchNotOk | PatchFailed

  datatype Request =
    | PostBook(body: Book, reviews: seq<string>)
    | PatchBook(target: Option<Id>, body: Book)
    | DeleteBook(target: Option<Id>)

  /** A handler's visible effect: the new page, an alert, a request sent. */
  datatype Step = Step(page: Page, alert: Option<string>, request: Option<Request>)

  /** A create-form submission: as a step, plus the element the POST's
      callbacks will act on and whether the form was reset. */
  datatype Submission = Submission(page: Page, alert: Option<string>,
                                   request: Option<Request>,
                                   pending: Option<nat>, reset: bool)

  const FillOutAlert := "Please fill out all form values!!!!"
  const UpdateAlert := "Update went wrong! Check the form and make sure there are no empty values!"

  /** Elements are distinct and every element came from the node counter. */
  predicate Wf(p: Page) {
    && (forall i :: 0 <= i < |p.books| ==> p.books[i].node < p.nextNode)
    && (forall i, j :: 0 <= i < j < |p.books| ==> p.books[i].node != p.books[j].node)
  }

  /** The card displays the record's fields with the three-tier label. */
  predicate Shows(c: Card, b: Book) {
    && c.title == b.title && c.author == b.author && c.price == b.price
    && c.stock == CreateTimeLabel(b.inventory) && c.imageUrl == b.imageUrl
  }

  predicate Absent(cards: seq<Card>, node: nat) {
    forall j :: 0 <= j < |cards| ==> cards[j].node != node
  }

  /** No card is waiting for its server id. */
  predicate NoPending(cards: seq<Card>) {
    forall j :: 0 <= j < |cards| ==> cards[j].id.Some?
  }

  /** `k` is where `querySelector` on `data-id` lands. */
  predicate IsFirstWithId(cards: seq<Card>, id: Option<Id>, k: int) {
    && 0 <= k < |cards| && cards[k].id == id
    && forall j :: 0 <= j < k ==> cards[j].id != id
  }

  function Fields(f: FormInput): seq<string> {
    [f.title, f.author, f.priceField, f.inventoryField, f.imageUrl]
  }

  /** The record a form describes; it carries no id. */
  function Draft(f: FormInput): Book {
    Book(None, f.title, f.author, f.price, f.inventory, f.imageUrl)
  }

  function FindNode(cards: seq<Card>, node: nat): (r: Option<nat>)
    ensures r.Some? ==> r.value < |cards| && cards[r.value].node == node
    ensures r.Some? ==> forall j :: 0 <= j < r.value ==> cards[j].node != node
    ensures r.None? ==> Absent(cards, node)
  {
    FirstIndex(cards, (c: Card) => c.node == node)
  }

  /** `querySelector("ul li[data-id='...']")`: the first card in list order
      whose attribute matches. */
  function FindId(cards: seq<Card>, id: Option<Id>): (r: Option<nat>)
    ensures r.Some? ==> IsFirstWithId(cards, id, r.value)
    ensures r.None? ==> forall j :: 0 <= j < |cards| ==> cards[j].id != id
  {
    FirstIndex(cards, (c: Card) => c.id == id)
  }

  /** The list with the given element's card filtered out, order kept: the
      reference for every removal. */
  function Without(cards: seq<Card>, node: nat): seq<Card>
    decreases |cards|
  {
    if cards == [] then []
    else if cards[0].node == node then Without(cards[1..], node)
    else [cards[0]] + Without(cards[1..], node)
  }

  /** `renderBook`: append a card for the record, tagged with its id. */
  function RenderBook(p: Page, b: Book): (r: Page)
    ensures r == p.(books := r.books, nextNode := r.nextNode)
    ensures |r.books| == |p.books| + 1 && r.books[..|p.books|] == p.books
    ensures Shows(r.books[|p.books|], b)
    ensures r.books[|p.books|].id == b.id && r.books[|p.books|].recordId == b.id
    ensures Wf(p) ==> Absent(p.books, r.books[|p.books|].node)
    ensures Wf(p) ==> Wf(r)
  {
    var c := Card(p.nextNode, b.id, b.id, b.title, b.author, b.price,
                  CreateTimeLabel(b.inventory), b.imageUrl);
    p.(books := p.books + [c], nextNode := p.nextNode + 1)
  }

  /** The initial load: one card per fetched record, in the order returned. */
  method LoadBooks(p: Page, fetched: seq<Book>) returns (q: Page)
    ensures q == p.(books := q.books, nextNode := q.nextNode)
    ensures |q.books| == |p.books| + |fetched| && q.books[..|p.books|] == p.books
    ensures forall i :: 0 <= i < |fetched| ==>
      && Shows(q.books[|p.books| + i], fetched[i]) && q.books[|p.books| + i].id == fetched[i].id
      && q.books[|p.books| + i].recordId == fetched[i].id
    ensures Wf(p) ==> Wf(q)
  {
    q := p;
    var k := 0;
    while k < |fetched|
      invariant k <= |fetched|
      invariant q == p.(books := q.books, nextNode := q.nextNode)
      invariant |q.books| == |p.books| + k && q.books[..|p.books|] == p.books
      invariant forall i :: 0 <= i < k ==>
        && Shows(q.books[|p.books| + i], fetched[i]) && q.books[|p.books| + i].id == fetched[i].id
        && q.books[|p.books| + i].recordId == fetched[i].id
      invariant Wf(p) ==> Wf(q)
    {
      q := RenderBook(q, fetched[k]);
      k := k + 1;
    }
  }

  /** `handleSubmit`. An invalid form only raises the alert. A valid one is
      rendered at once with no id, the first card whose id is still missing
      is taken as the element to settle later, the POST is sent with an empty
      review list, and the form is reset. */
  function Submit(p: Page, f: FormInput): (r: Submission)
    ensures !ValidateFormData(Fields(f)) ==>
      && r.page == p && r.alert == Some(FillOutAlert)
      && r.request.None? && r.pending.None? && !r.reset
    ensures ValidateFormData(Fields(f)) ==>
      && r.alert.None? && r.reset
      && r.request == Some(PostBook(Draft(f), []))
      && r.page == p.(books := r.page.books, nextNode := r.page.nextNode)
      && |r.page.books| == |p.books| + 1 && r.page.books[..|p.books|] == p.books
      && Shows(r.page.books[|p.books|], Draft(f))
      && r.page.books[|p.books|].id.None? && r.page.books[|p.books|].recordId.None?
      && (Wf(p) ==> Wf(r.page) && Absent(p.books, r.page.books[|p.books|].node))
      && (NoPending(p.books) ==> r.pending == Some(r.page.books[|p.books|].node))
      && (forall k :: IsFirstWithId(p.books, None, k) ==> r.pending == Some(p.books[k].node))
  {
    if ValidateFormData(Fields(f)) then
      var q := RenderBook(p, Draft(f));
      var i := FindId(q.books, None);
      assert i.Some? by {
        assert q.books[|p.books|].id == None;
      }
      Submission(q, None, Some(PostBook(Draft(f), [])), Some(q.books[i.value].node), true)
    else
      Submission(p, Some(FillOutAlert), None, None, false)
  }

  /** The POST's callbacks on the element taken at submit time: an ok
      response writes the new id into its `data-id`, a not-ok status or a
      failed fetch removes it. An element already gone is left alone. */
  function Settle(p: Page, pending: nat, outcome: PostOutcome): (r: Page)
    ensures r == p.(books := r.books)
    ensures Absent(p.books, pending) ==> r == p
    ensures Wf(p) ==> Wf(r)
    ensures Wf(p) && outcome.Created? ==>
      && |r.books| == |p.books|
      && forall j :: 0 <= j < |p.books| ==>
           r.books[j] == if p.books[j].node == pending
                         then p.books[j].(id := Some(outcome.id)) else p.books[j]
    ensures Wf(p) && !outcome.Created? ==> Absent(r.books, pending)
    ensures Wf(p) && !outcome.Created? && !Absent(p.books, pending) ==>
      |r.books| == |p.books| - 1
  {
    match FindNode(p.books, pending)
    case None => p
    case Some(i) =>
      match outcome
      case Created(id) => p.(books := p.books[i := p.books[i].(id := Some(id))])
      case _ => p.(books := RemoveAt(p.books, i))
  }

  /** The Delete button of the given element: the request names the
      captured record id, or the element's `data-id` when that is missing;
      an ok response removes the element, anything else leaves the list. */
  function Delete(p: Page, node: nat, ok: bool): (r: Step)
    ensures r.alert.None?
    ensures r.page == p.(books := r.page.books)
    ensures !ok ==> r.page == p
    ensures Absent(p.books, node) ==> r.page == p && r.request.None?
    ensures forall k :: 0 <= k < |p.books| && p.books[k].node == node && Wf(p) ==>
      r.request == Some(DeleteBook(if p.books[k].recordId.Some?
                                   then p.books[k].recordId else p.books[k].id))
    ensures Wf(p) ==> Wf(r.page)
    ensures Wf(p) && ok ==> Absent(r.page.books, node)
    ensures ok && !Absent(p.books, node) ==> |r.page.books| == |p.books| - 1
  {
    match FindNode(p.books, node)
    case None => Step(p, None, None)
    case Some(i) =>
      var c := p.books[i];
      var target := if c.recordId.Some? then c.recordId else c.id;
      Step(if ok then p.(books := RemoveAt(p.books, i)) else p, None, Some(DeleteBook(target)))
  }

  /** The Edit button of the given element: show the modal and record the
      captured record id on the edit form. */
  function OpenEdit(p: Page, node: nat): (r: Page)
    ensures r == p.(modalOpen := r.modalOpen, editTarget := r.editTarget)
    ensures Absent(p.books, node) ==> r == p
    ensures forall k :: 0 <= k < |p.books| && p.books[k].node == node && Wf(p) ==>
      r.modalOpen && r.editTarget == p.books[k].recordId
  {
    match FindNode(p.books, node)
    case None => p
    case Some(i) => p.(modalOpen := true, editTarget := p.books[i].recordId)
  }

  /** The card after a successful edit: new display fields and the two-tier
      label; its element and `data-id` stay. */
  predicate Rewritten(before: Card, after: Card, b: Book) {
    && after.node == before.node && after.id == before.id && after.recordId == before.recordId
    && after.title == b.title && after.author == b.author && after.price == b.price
    && after.stock == EditTimeLabel(b.inventory) && after.imageUrl == b.imageUrl
  }

  /** `patchExistingBook`. An invalid form does nothing at all. Otherwise the
      PATCH goes to the recorded target; a not-ok status raises the alert
      and leaves the modal open; a rejected fetch has no handler, so nothing
      happens at all; an ok one rewrites the first card whose
      `data-id` matches the returned record and closes the modal. When no
      card matches, the lookup yields null, the callback throws before the
      modal is closed, and the page stays as it was. */
  function Patch(p: Page, f: FormInput, outcome: PatchOutcome): (r: Step)
    ensures !ValidateFormData(Fields(f)) ==> r == Step(p, None, None)
    ensures ValidateFormData(Fields(f)) ==> r.request == Some(PatchBook(p.editTarget, Draft(f)))
    ensures ValidateFormData(Fields(f)) && outcome.PatchNotOk? ==>
      r.page == p && r.alert == Some(UpdateAlert)
    ensures ValidateFormData(Fields(f)) && outcome.PatchFailed? ==>
      r.page == p && r.alert.None?
    ensures ValidateFormData(Fields(f)) && outcome.Patched? &&
            (forall j :: 0 <= j < |p.books| ==> p.books[j].id != outcome.book.id) ==>
      r.page == p && r.alert.None?
    ensures r.page == p.(books := r.page.books, modalOpen := r.page.modalOpen)
    ensures |r.page.books| == |p.books|
  {
    if !ValidateFormData(Fields(f)) then Step(p, None, None)
    else
      var request := Some(PatchBook(p.editTarget, Draft(f)));
      match outcome
      case PatchNotOk => Step(p, Some(UpdateAlert), request)
      case PatchFailed => Step(p, None, request)
      case Patched(b) =>
        match FindId(p.books, b.id)
        case None => Step(p, None, request)
        case Some(i) =>
          var c := p.books[i].(title := b.title, author := b.author, price := b.price,
                               stock := EditTimeLabel(b.inventory), imageUrl := b.imageUrl);
          Step(p.(books := p.books[i := c], modalOpen := false), None, request)
  }

  /** A click on one of the two toggle buttons. */
  function PressToggle(p: Page, k: FormKind): (r: Page)
    ensures r == p.(bookForm := r.bookForm, storeForm := r.storeForm)
    ensures k == BookForm ==> r.storeForm == p.storeForm && r.bookForm.collapsed != p.bookForm.collapsed
    ensures k == StoreForm ==> r.bookForm == p.bookForm && r.storeForm.collapsed != p.storeForm.collapsed
    ensures Labelled(BookForm, r.bookForm) || k == StoreForm
    ensures Labelled(StoreForm, r.storeForm) || k == BookForm
  {
    match k
    case BookForm => p.(bookForm := Toggle(BookForm, p.bookForm))
    case StoreForm => p.(storeForm := Toggle(StoreForm, p.storeForm))
  }

  /** The Escape key: collapse whichever forms are expanded. The modal and
      the list are not touched. */
  function Escape(p: Page): (r: Page)
    ensures r.bookForm.collapsed && r.storeForm.collapsed
    ensures r == p.(bookForm := r.bookForm, storeForm := r.storeForm)
    ensures p.bookForm.collapsed ==> r.bookForm == p.bookForm
    ensures p.storeForm.collapsed ==> r.storeForm == p.storeForm
    ensures !p.bookForm.collapsed ==> r.bookForm.caption == CollapsedLabel(BookForm)
    ensures !p.storeForm.collapsed ==> r.storeForm.caption == CollapsedLabel(StoreForm)
  {
    p.(bookForm := Dismiss(BookForm, p.bookForm), storeForm := Dismiss(StoreForm, p.storeForm))
  }

  /** A click on the modal's close glyph. */
  function CloseModal(p: Page): (r: Page)
    ensures !r.modalOpen
    ensures r == p.(modalOpen := r.modalOpen)
  {
    p.(modalOpen := false)
  }

  /** A click anywhere in the window: it closes the modal only when it lands
      on the modal's backdrop itself. */
  function ClickWindow(p: Page, onBackdrop: bool): (r: Page)
    ensures onBackdrop ==> !r.modalOpen
    ensures !onBackdrop ==> r == p
    ensures r == p.(modalOpen := r.modalOpen)
  {
    if onBackdrop then CloseModal(p) else p
  }
}
