/** The stock-status line of a book card. Rendering a book uses three tiers;
    the in-place update after an edit uses only two. */
module Stock {

  datatype StockLabel = OutOfStock | FewLeft | InStock {

    /** The text the card shows. */
    function Text(): string {
      match this
      case OutOfStock => "Out of stock"
      case FewLeft => "Only a few left!"
      case InStock => "In stock"
    }
  }

  /** Label chosen when a card is rendered: zero is out of stock, anything
      else below three (negative counts included) is "a few left", three or
      more is in stock. */
  function CreateTimeLabel(inventory: int): (l: StockLabel)
    ensures l == OutOfStock <==> inventory == 0
    ensures l == FewLeft <==> inventory != 0 && inventory < 3
    ensures l == InStock <==> inventory >= 3
  {
    if inventory == 0 then OutOfStock
    else if inventory < 3 then FewLeft
    else InStock
  }

  /** Label written after a successful edit: the count is only tested for
      truthiness, so every non-zero count reads "In stock". */
  function EditTimeLabel(inventory: int): (l: StockLabel)
    ensures l == InStock <==> inventory != 0
    ensures l == OutOfStock <==> inventory == 0
    ensures l != FewLeft
  {
    if inventory != 0 then InStock else OutOfStock
  }

  /** The two labellings differ exactly on the counts below three other than
      zero, where rendering says "a few left" and editing says "in stock". */
  lemma LabelsDisagree(inventory: int)
    ensures CreateTimeLabel(inventory) != EditTimeLabel(inventory)
        <==> inventory != 0 && inventory < 3
    ensures inventory != 0 && inventory < 3 ==>
        CreateTimeLabel(inventory) == FewLeft && EditTimeLabel(inventory) == InStock
  {
  }

  /** Distinct labels show distinct texts, so a card's text determines its tier. */
  lemma TextInjective(a: StockLabel, b: StockLabel)
    ensures a.Text() == b.Text() <==> a == b
  {
    if a != b {
      assert a.Text()[0] != b.Text()[0] || a.Text()[1] != b.Text()[1];
    }
  }
}
