/** Properties that span several handlers: removal as filtering, the
    optimistic create's confirm and rollback, and what the first-match lookup
    at submit time means when an earlier creation is still pending. */
module Flows {
  import opened Optional
  import opened Seqs
  import opened Text
  import opened Stock
  import opened Chrome
  import opened Catalog

  /** Filtering out an element that is not in the list changes nothing. */
  lemma {:induction false} WithoutAbsent(cards: seq<Card>, node: nat)
    requires Absent(cards, node)
    ensures Without(cards, node) == cards
    decreases |cards|
  {
    if cards != [] {
      WithoutAbsent(cards[1..], node);
      assert [cards[0]] + cards[1..] == cards;
    }
  }

  /** The filtered list holds exactly the cards of other elements. */
  lemma {:induction false} WithoutContents(cards: seq<Card>, node: nat)
    ensures forall c :: c in Without(cards, node) <==> c in cards && c.node != node
    decreases |cards|
  {
    if cards != [] {
      WithoutContents(cards[1..], node);
      assert forall c :: c in cards <==> c == cards[0] || c in cards[1..];
    }
  }

  /** Removing the one card of an element at its position is filtering it out. */
  lemma {:induction false} RemoveAtIsWithout(cards: seq<Card>, node: nat, i: nat)
    requires i < |cards| && cards[i].node == node
    requires forall j :: 0 <= j < |cards| && j != i ==> cards[j].node != node
    ensures RemoveAt(cards, i) == Without(cards, node)
    decreases |cards|
  {
    if i == 0 {
      WithoutAbsent(cards[1..], node);
      assert RemoveAt(cards, 0) == cards[1..];
    } else {
      RemoveAtIsWithout(cards[1..], node, i - 1);
      assert RemoveAt(cards, i) == [cards[0]] + RemoveAt(cards[1..], i - 1);
    }
  }

  /** An ok DELETE removes exactly that card and keeps the others in order. */
  lemma DeleteIsWithout(p: Page, node: nat)
    requires Wf(p)
    ensures Delete(p, node, true).page.books == Without(p.books, node)
  {
    match FindNode(p.books, node)
    case None => WithoutAbsent(p.books, node);
    case Some(i) => RemoveAtIsWithout(p.books, node, i);
  }

  /** A failed POST removes exactly the pending card and keeps the others in order. */
  lemma SettleFailureIsWithout(p: Page, pending: nat, outcome: PostOutcome)
    requires Wf(p) && !outcome.Created?
    ensures Settle(p, pending, outcome).books == Without(p.books, pending)
  {
    match FindNode(p.books, pending)
    case None => WithoutAbsent(p.books, pending);
    case Some(i) => RemoveAtIsWithout(p.books, pending, i);
  }

  /** What a valid submit does to the list, in the shape the lemmas below use. */
  lemma SubmitAppends(p: Page, f: FormInput)
    requires Wf(p) && ValidateFormData(Fields(f))
    ensures var s := Submit(p, f);
            var added := s.page.books[|p.books|];
            && s.page.books == p.books + [added]
            && Wf(s.page) && Absent(p.books, added.node) && added.id.None?
            && (NoPending(p.books) ==> s.pending == Some(added.node))
  {
    var s := Submit(p, f);
    assert s.page.books == p.books + [s.page.books[|p.books|]];
  }

  /** Settling an element appended to a list it is not in: success gives it
      the id, failure takes it back out, and the earlier cards stay. */
  lemma SettleAppended(q: Page, before: seq<Card>, added: Card, outcome: PostOutcome)
    requires Wf(q) && q.books == before + [added] && Absent(before, added.node)
    ensures outcome.Created? ==>
      Settle(q, added.node, outcome).books == before + [added.(id := Some(outcome.id))]
    ensures !outcome.Created? ==> Settle(q, added.node, outcome).books == before
  {
    var r := Settle(q, added.node, outcome);
    var n := |before|;
    assert q.books[n] == added;
    if outcome.Created? {
      forall j | 0 <= j < n + 1
        ensures r.books[j] == (before + [added.(id := Some(outcome.id))])[j]
      {
        if j < n {
          assert q.books[j] == before[j] && before[j].node != added.node;
        }
      }
    } else {
      SettleFailureIsWithout(q, added.node, outcome);
      WithoutAppend(before, [added], added.node);
      WithoutAbsent(before, added.node);
      assert Without([added], added.node) == [];
    }
  }

  /** With no earlier creation pending, a failed POST puts the list back to
      what it was before the submit. */
  lemma RollbackRestores(p: Page, f: FormInput, outcome: PostOutcome)
    requires Wf(p) && ValidateFormData(Fields(f)) && NoPending(p.books)
    requires !outcome.Created?
    ensures Submit(p, f).pending.Some?
    ensures Settle(Submit(p, f).page, Submit(p, f).pending.value, outcome).books == p.books
  {
    var s := Submit(p, f);
    SubmitAppends(p, f);
    SettleAppended(s.page, p.books, s.page.books[|p.books|], outcome);
  }

  lemma {:induction false} WithoutAppend(a: seq<Card>, b: seq<Card>, node: nat)
    ensures Without(a + b, node) == Without(a, node) + Without(b, node)
    decreases |a|
  {
    if a == [] {
      assert a + b == b;
    } else {
      WithoutAppend(a[1..], b, node);
      assert (a + b)[1..] == a[1..] + b;
    }
  }

  /** With no earlier creation pending, an ok POST gives the just-appended
      card the server's id and changes nothing else; afterwards no card is
      pending. */
  lemma ConfirmSetsNewId(p: Page, f: FormInput, id: Id)
    requires Wf(p) && ValidateFormData(Fields(f)) && NoPending(p.books)
    ensures Submit(p, f).pending.Some?
    ensures var s := Submit(p, f);
            var q := Settle(s.page, s.pending.value, Created(id));
            && q.books == p.books + [s.page.books[|p.books|].(id := Some(id))]
            && NoPending(q.books)
  {
    var s := Submit(p, f);
    var added := s.page.books[|p.books|];
    SubmitAppends(p, f);
    SettleAppended(s.page, p.books, added, Created(id));
    var books := p.books + [added.(id := Some(id))];
    assert NoPending(books) by {
      forall j | 0 <= j < |books| ensures books[j].id.Some? {
        if j < |p.books| { assert books[j] == p.books[j]; }
      }
    }
  }

  /** When an earlier card is still waiting for its id, the submit-time
      lookup picks that card instead of the new one: a failed POST removes
      the earlier card and leaves the new one, so the list is not restored,
      and an ok POST gives the id to the earlier card while the new card
      keeps no id. */
  lemma EarlierPendingIsTargeted(p: Page, f: FormInput, k: nat, outcome: PostOutcome)
    requires Wf(p) && ValidateFormData(Fields(f)) && IsFirstWithId(p.books, None, k)
    ensures Submit(p, f).pending == Some(p.books[k].node)
    ensures var s := Submit(p, f);
            var q := Settle(s.page, p.books[k].node, outcome);
            var added := s.page.books[|p.books|];
            && (!outcome.Created? ==>
                  q.books == p.books[..k] + p.books[k + 1..] + [added] && q.books != p.books)
            && (outcome.Created? ==>
                  q.books[k].id == Some(outcome.id) && q.books[|p.books|] == added && added.id.None?)
  {
    var s := Submit(p, f);
    var added := s.page.books[|p.books|];
    SubmitAppends(p, f);
    SettleEarlier(s.page, p.books, added, k, outcome);
    if !outcome.Created? {
      var q := Settle(s.page, p.books[k].node, outcome);
      assert q.books[|p.books| - 1] == added;
      assert p.books[|p.books| - 1].node != added.node;
    }
  }

  /** Settling an earlier card of a list that has a card appended after it:
      the appended card is left as it was. */
  lemma SettleEarlier(q: Page, before: seq<Card>, added: Card, k: nat, outcome: PostOutcome)
    requires Wf(q) && q.books == before + [added] && k < |before|
    ensures var r := Settle(q, before[k].node, outcome);
            && (!outcome.Created? ==> r.books == before[..k] + before[k + 1..] + [added])
            && (outcome.Created? ==>
                  r.books[k] == before[k].(id := Some(outcome.id)) && r.books[|before|] == added)
  {
    var r := Settle(q, before[k].node, outcome);
    assert q.books[k] == before[k] && q.books[|before|] == added;
    if !outcome.Created? {
      SettleFailureIsWithout(q, before[k].node, outcome);
      RemoveAtIsWithout(q.books, before[k].node, k);
      assert RemoveAt(q.books, k) == before[..k] + before[k + 1..] + [added];
    }
  }

  /** A card created here and then confirmed is deleted by its server id,
      since the Delete handler falls back to `data-id`; its Edit button
      still records no id, since that handler reads only the captured
      record. */
  lemma ConfirmedCardTargets(p: Page, f: FormInput, id: Id)
    requires Wf(p) && ValidateFormData(Fields(f)) && NoPending(p.books)
    ensures Submit(p, f).pending.Some?
    ensures var s := Submit(p, f);
            var q := Settle(s.page, s.pending.value, Created(id));
            && Delete(q, s.pending.value, true).request == Some(DeleteBook(Some(id)))
            && OpenEdit(q, s.pending.value).editTarget.None?
            && OpenEdit(q, s.pending.value).modalOpen
  {
    var s := Submit(p, f);
    var q := Settle(s.page, s.pending.value, Created(id));
    ConfirmSetsNewId(p, f, id);
    assert q.books[|p.books|].node == s.pending.value;
  }

  /** Two positions that are both the first match of one id are equal. */
  lemma FirstIsUnique(cards: seq<Card>, id: Option<Id>, i: int, k: int)
    requires IsFirstWithId(cards, id, i) && IsFirstWithId(cards, id, k)
    ensures i == k
  {
  }

  /** An ok PATCH rewrites the first card whose `data-id` matches the
      returned record: title, author, price, image and the two-tier label
      change, the element and its `data-id` stay, every other card is as it
      was, no alert is raised and the modal closes. */
  lemma PatchRewritesFirstMatch(p: Page, f: FormInput, b: Book, k: nat)
    requires ValidateFormData(Fields(f)) && IsFirstWithId(p.books, b.id, k)
    ensures var r := Patch(p, f, Patched(b));
            && r.alert.None? && !r.page.modalOpen
            && Rewritten(p.books[k], r.page.books[k], b)
            && forall j :: 0 <= j < |p.books| && j != k ==> r.page.books[j] == p.books[j]
  {
    var i := FindId(p.books, b.id);
    assert i.Some? by {
      assert p.books[k].id == b.id;
    }
    FirstIsUnique(p.books, b.id, i.value, k);
  }

  /** A patch keeps the element identities distinct and allocated, since it
      rewrites a card in place. */
  lemma PatchKeepsWf(p: Page, f: FormInput, outcome: PatchOutcome)
    requires Wf(p)
    ensures Wf(Patch(p, f, outcome).page)
  {
    var r := Patch(p, f, outcome).page;
    assert forall j :: 0 <= j < |p.books| ==> r.books[j].node == p.books[j].node;
  }

  /** Escape twice is Escape once. */
  lemma EscapeIdempotent(p: Page)
    ensures Escape(Escape(p)) == Escape(p)
  {
  }

  /** Escape keeps each button's text in step with its form. */
  lemma EscapeKeepsLabels(p: Page)
    requires Labelled(BookForm, p.bookForm) && Labelled(StoreForm, p.storeForm)
    ensures Labelled(BookForm, Escape(p).bookForm) && Labelled(StoreForm, Escape(p).storeForm)
  {
  }

  /** Rendering a record and then editing the card with that same record
      changes its label exactly when the count is below three and not zero. */
  lemma EditRelabelsFewLeft(p: Page, f: FormInput, b: Book)
    requires ValidateFormData(Fields(f))
    requires forall j :: 0 <= j < |p.books| ==> p.books[j].id != b.id
    ensures var q := RenderBook(p, b);
            var r := Patch(q, f, Patched(b)).page;
            var changed := r.books[|p.books|].stock != q.books[|p.books|].stock;
            changed <==> b.inventory != 0 && b.inventory < 3
  {
    var q := RenderBook(p, b);
    assert IsFirstWithId(q.books, b.id, |p.books|);
    LabelsDisagree(b.inventory);
  }
}
